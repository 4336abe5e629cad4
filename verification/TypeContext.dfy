/** The interner: one object per type structure, found again through the table of its kind. */
module TypeContexts {
  import opened QualTypes
  import opened AST
  import opened TypeStorage

  function BuiltinAddress(n: NativeType): Address {
    match n
    case I1 => 0
    case I8 => 1
    case I16 => 2
    case I32 => 3
    case I64 => 4
    case F32 => 5
    case F64 => 6
    case Str => 7
  }

  const UNIT_ADDRESS: Address := 8

  /** The statically allocated leaves come first, one per native type and then unit. */
  ghost predicate HasBuiltins(st: Storage) {
    && |st| > UNIT_ADDRESS && st[UNIT_ADDRESS] == UnitType
    && forall n: NativeType :: st[BuiltinAddress(n)] == BuiltinType(n)
  }

  const NATIVES: seq<NativeType> := [I1, I8, I16, I32, I64, F32, F64, Str]

  lemma {:induction false} NativesInOrder()
    ensures |NATIVES| == UNIT_ADDRESS && forall n: NativeType :: NATIVES[BuiltinAddress(n)] == n
    ensures forall i, j :: 0 <= i < j < |NATIVES| ==> NATIVES[i] != NATIVES[j]
  {
    assert forall i :: 0 <= i < |NATIVES| ==> BuiltinAddress(NATIVES[i]) == i;
  }

  function Leaves(): (st: Storage)
    ensures HasBuiltins(st) && WellFormed(st)
    ensures forall p :: 0 <= p < |st| ==> st[p].BuiltinType? || st[p].UnitType?
  {
    NativesInOrder();
    seq(|NATIVES|, i requires 0 <= i < |NATIVES| => BuiltinType(NATIVES[i])) + [UnitType]
  }

  // Each table maps a key to the one object with that key, and misses none.

  ghost predicate NamedIndex(st: Storage, m: map<TypeDecl, Address>) {
    && (forall d :: d in m ==> m[d] < |st| && st[m[d]] == NamedType(d))
    && (forall p :: 0 <= p < |st| && st[p].NamedType? ==> st[p].decl in m)
  }

  ghost predicate PointerIndex(st: Storage, m: map<QualType, Address>) {
    && (forall q :: q in m ==> m[q] < |st| && st[m[q]] == PointerType(q))
    && (forall p :: 0 <= p < |st| && st[p].PointerType? ==> st[p].pointee in m)
  }

  ghost predicate ArrayIndex(st: Storage, m: map<QualType, Address>) {
    && (forall q :: q in m ==> m[q] < |st| && st[m[q]] == ArrayType(q))
    && (forall p :: 0 <= p < |st| && st[p].ArrayType? ==> st[p].element in m)
  }

  ghost predicate FuncIndex(st: Storage, m: map<(seq<QualType>, QualType), Address>) {
    && (forall k :: k in m ==> m[k] < |st| && st[m[k]] == FuncType(k.0, k.1))
    && (forall p :: 0 <= p < |st| && st[p].FuncType? ==> (st[p].params, st[p].ret) in m)
  }

  ghost predicate ObjectIndex(st: Storage, m: map<map<string, QualType>, Address>) {
    && (forall k :: k in m ==> m[k] < |st| && st[m[k]] == ObjectType(k))
    && (forall p :: 0 <= p < |st| && st[p].ObjectType? ==> st[p].fields in m)
  }

  ghost predicate EnumIndex(st: Storage, m: map<map<string, QualType>, Address>) {
    && (forall k :: k in m ==> m[k] < |st| && st[m[k]] == EnumType(k))
    && (forall p :: 0 <= p < |st| && st[p].EnumType? ==> st[p].members in m)
  }

  ghost predicate Consistent(st: Storage, named: map<TypeDecl, Address>, pointers: map<QualType, Address>,
                             arrays: map<QualType, Address>, funcs: map<(seq<QualType>, QualType), Address>,
                             objects: map<map<string, QualType>, Address>,
                             enums: map<map<string, QualType>, Address>, impls: map<TypeDecl, seq<FuncDecl>>) {
    && HasBuiltins(st) && NamedIndex(st, named) && PointerIndex(st, pointers)
    && ArrayIndex(st, arrays) && FuncIndex(st, funcs) && ObjectIndex(st, objects)
    && EnumIndex(st, enums) && impls.Keys == named.Keys
  }

  // The table of each kind after an object is appended.

  lemma AppendNamed(o: TypeObj, st: Storage, m: map<TypeDecl, Address>)
    requires NamedIndex(st, m)
    ensures NamedIndex(st + [o], if o.NamedType? then m[o.decl := |st|] else m)
  {
  }

  lemma AppendPointer(o: TypeObj, st: Storage, m: map<QualType, Address>)
    requires PointerIndex(st, m)
    ensures PointerIndex(st + [o], if o.PointerType? then m[o.pointee := |st|] else m)
  {
  }

  lemma AppendArray(o: TypeObj, st: Storage, m: map<QualType, Address>)
    requires ArrayIndex(st, m)
    ensures ArrayIndex(st + [o], if o.ArrayType? then m[o.element := |st|] else m)
  {
  }

  lemma AppendFunc(o: TypeObj, st: Storage, m: map<(seq<QualType>, QualType), Address>)
    requires FuncIndex(st, m)
    ensures FuncIndex(st + [o], if o.FuncType? then m[(o.params, o.ret) := |st|] else m)
  {
  }

  lemma AppendObject(o: TypeObj, st: Storage, m: map<map<string, QualType>, Address>)
    requires ObjectIndex(st, m)
    ensures ObjectIndex(st + [o], if o.ObjectType? then m[o.fields := |st|] else m)
  {
  }

  lemma AppendEnum(o: TypeObj, st: Storage, m: map<map<string, QualType>, Address>)
    requires EnumIndex(st, m)
    ensures EnumIndex(st + [o], if o.EnumType? then m[o.members := |st|] else m)
  {
  }

  // Looking an object up in the table of its kind.

  lemma LookNamed(st: Storage, m: map<TypeDecl, Address>, d: TypeDecl)
    requires NamedIndex(st, m)
    ensures d in m ==> m[d] < |st| && st[m[d]] == NamedType(d)
    ensures d !in m ==> Intern(st, NamedType(d)) == (st + [NamedType(d)], |st|)
  {
  }

  lemma LookPointer(st: Storage, m: map<QualType, Address>, t: QualType)
    requires PointerIndex(st, m)
    ensures t in m ==> m[t] < |st| && st[m[t]] == PointerType(t)
    ensures t !in m ==> Intern(st, PointerType(t)) == (st + [PointerType(t)], |st|)
  {
  }

  lemma LookArray(st: Storage, m: map<QualType, Address>, t: QualType)
    requires ArrayIndex(st, m)
    ensures t in m ==> m[t] < |st| && st[m[t]] == ArrayType(t)
    ensures t !in m ==> Intern(st, ArrayType(t)) == (st + [ArrayType(t)], |st|)
  {
  }

  lemma LookFunc(st: Storage, m: map<(seq<QualType>, QualType), Address>, params: seq<QualType>, ret: QualType)
    requires FuncIndex(st, m)
    ensures (params, ret) in m ==> m[(params, ret)] < |st| && st[m[(params, ret)]] == FuncType(params, ret)
    ensures (params, ret) !in m ==> Intern(st, FuncType(params, ret)) == (st + [FuncType(params, ret)], |st|)
  {
  }

  lemma LookObject(st: Storage, m: map<map<string, QualType>, Address>, fields: map<string, QualType>)
    requires ObjectIndex(st, m)
    ensures fields in m ==> m[fields] < |st| && st[m[fields]] == ObjectType(fields)
    ensures fields !in m ==> Intern(st, ObjectType(fields)) == (st + [ObjectType(fields)], |st|)
  {
  }

  lemma LookEnum(st: Storage, m: map<map<string, QualType>, Address>, members: map<string, QualType>)
    requires EnumIndex(st, m)
    ensures members in m ==> m[members] < |st| && st[m[members]] == EnumType(members)
    ensures members !in m ==> Intern(st, EnumType(members)) == (st + [EnumType(members)], |st|)
  {
  }

  /** Adding an object under its key keeps the tables exact. */
  lemma AppendKeepsConsistent(o: TypeObj, st: Storage, named: map<TypeDecl, Address>, pointers: map<QualType, Address>,
                              arrays: map<QualType, Address>, funcs: map<(seq<QualType>, QualType), Address>,
                              objects: map<map<string, QualType>, Address>,
                              enums: map<map<string, QualType>, Address>, impls: map<TypeDecl, seq<FuncDecl>>)
    requires Consistent(st, named, pointers, arrays, funcs, objects, enums, impls)
    ensures Consistent(st + [o],
                       if o.NamedType? then named[o.decl := |st|] else named,
                       if o.PointerType? then pointers[o.pointee := |st|] else pointers,
                       if o.ArrayType? then arrays[o.element := |st|] else arrays,
                       if o.FuncType? then funcs[(o.params, o.ret) := |st|] else funcs,
                       if o.ObjectType? then objects[o.fields := |st|] else objects,
                       if o.EnumType? then enums[o.members := |st|] else enums,
                       if o.NamedType? then impls[o.decl := []] else impls)
  {
    AppendNamed(o, st, named);
    AppendPointer(o, st, pointers);
    AppendArray(o, st, arrays);
    AppendFunc(o, st, funcs);
    AppendObject(o, st, objects);
    AppendEnum(o, st, enums);
    assert HasBuiltins(st + [o]);
  }

  class TypeContext {
    /** Every type object, by address; objects are never moved or removed. */
    var storage: Storage
    var namedCtx: map<TypeDecl, Address>
    var pointerCtx: map<QualType, Address>
    var arrayCtx: map<QualType, Address>
    var funcCtx: map<(seq<QualType>, QualType), Address>
    var objCtx: map<map<string, QualType>, Address>
    var enumCtx: map<map<string, QualType>, Address>
    /** The function list of each named type object, by the declaration it is for. */
    var impls: map<TypeDecl, seq<FuncDecl>>

    /** Well-formed storage, and each table maps a key to the one object with that key, and misses none. */
    ghost predicate Valid()
      reads this
    {
      && WellFormed(storage)
      && Consistent(storage, namedCtx, pointerCtx, arrayCtx, funcCtx, objCtx, enumCtx, impls)
    }

    constructor ()
      ensures Valid() && storage == Leaves() && impls == map[]
    {
      storage := Leaves();
      namedCtx, pointerCtx, arrayCtx, funcCtx := map[], map[], map[], map[];
      objCtx, enumCtx, impls := map[], map[], map[];
    }

    method GetUnknownType() returns (q: QualType)
      ensures q == UNKNOWN
    {
      q := UNKNOWN;
    }

    method GetUnitType() returns (q: QualType)
      requires Valid()
      ensures (storage, q) == InternQ(storage, UnitType)
    {
      InternFindsAddress(storage, UnitType, UNIT_ADDRESS);
      q := At(UNIT_ADDRESS);
    }

    method GetBuiltinType(n: NativeType) returns (q: QualType)
      requires Valid()
      ensures (storage, q) == InternQ(storage, BuiltinType(n))
    {
      InternFindsAddress(storage, BuiltinType(n), BuiltinAddress(n));
      q := At(BuiltinAddress(n));
    }

    method GetNamedType(d: TypeDecl) returns (q: QualType)
      requires Valid()
      modifies this`storage, this`namedCtx, this`impls
      ensures Valid() && (storage, q) == InternQ(old(storage), NamedType(d))
      ensures impls == if d in old(impls) then old(impls) else old(impls)[d := []]
    {
      hide WellFormed, HasBuiltins, NamedIndex, PointerIndex, ArrayIndex, FuncIndex, ObjectIndex, EnumIndex, Intern;
      LookNamed(storage, namedCtx, d);
      if d in namedCtx {
        InternFindsAddress(storage, NamedType(d), namedCtx[d]);
        return At(namedCtx[d]);
      }
      InternKeepsWellFormed(storage, NamedType(d));
      AppendKeepsConsistent(NamedType(d), storage, namedCtx, pointerCtx, arrayCtx, funcCtx, objCtx, enumCtx, impls);
      namedCtx := namedCtx[d := |storage|];
      impls := impls[d := []];
      q := At(|storage|);
      storage := storage + [NamedType(d)];
    }

    /** The null type is the table's reserved empty key, so no caller may ask for a pointer to it. */
    method GetPointerType(t: QualType) returns (q: QualType)
      requires Valid() && t != UNKNOWN && InRange(t, |storage|)
      modifies this`storage, this`pointerCtx
      ensures Valid() && (storage, q) == InternQ(old(storage), PointerType(t))
    {
      hide WellFormed, HasBuiltins, NamedIndex, PointerIndex, ArrayIndex, FuncIndex, ObjectIndex, EnumIndex, Intern;
      LookPointer(storage, pointerCtx, t);
      if t in pointerCtx {
        InternFindsAddress(storage, PointerType(t), pointerCtx[t]);
        return At(pointerCtx[t]);
      }
      InternKeepsWellFormed(storage, PointerType(t));
      AppendKeepsConsistent(PointerType(t), storage, namedCtx, pointerCtx, arrayCtx, funcCtx, objCtx, enumCtx, impls);
      pointerCtx := pointerCtx[t := |storage|];
      q := At(|storage|);
      storage := storage + [PointerType(t)];
    }

    method GetArrayType(t: QualType) returns (q: QualType)
      requires Valid() && t != UNKNOWN && InRange(t, |storage|)
      modifies this`storage, this`arrayCtx
      ensures Valid() && (storage, q) == InternQ(old(storage), ArrayType(t))
    {
      hide WellFormed, HasBuiltins, NamedIndex, PointerIndex, ArrayIndex, FuncIndex, ObjectIndex, EnumIndex, Intern;
      LookArray(storage, arrayCtx, t);
      if t in arrayCtx {
        InternFindsAddress(storage, ArrayType(t), arrayCtx[t]);
        return At(arrayCtx[t]);
      }
      InternKeepsWellFormed(storage, ArrayType(t));
      AppendKeepsConsistent(ArrayType(t), storage, namedCtx, pointerCtx, arrayCtx, funcCtx, objCtx, enumCtx, impls);
      arrayCtx := arrayCtx[t := |storage|];
      q := At(|storage|);
      storage := storage + [ArrayType(t)];
    }

    method GetFuncType(params: seq<QualType>, ret: QualType) returns (q: QualType)
      requires Valid() && InRangeAll(params, |storage|) && InRange(ret, |storage|)
      modifies this`storage, this`funcCtx
      ensures Valid() && (storage, q) == InternQ(old(storage), FuncType(params, ret))
    {
      hide WellFormed, HasBuiltins, NamedIndex, PointerIndex, ArrayIndex, FuncIndex, ObjectIndex, EnumIndex, Intern;
      LookFunc(storage, funcCtx, params, ret);
      if (params, ret) in funcCtx {
        InternFindsAddress(storage, FuncType(params, ret), funcCtx[(params, ret)]);
        return At(funcCtx[(params, ret)]);
      }
      InternKeepsWellFormed(storage, FuncType(params, ret));
      AppendKeepsConsistent(FuncType(params, ret), storage, namedCtx, pointerCtx, arrayCtx, funcCtx, objCtx, enumCtx, impls);
      funcCtx := funcCtx[(params, ret) := |storage|];
      q := At(|storage|);
      storage := storage + [FuncType(params, ret)];
    }

    method GetObjectType(fields: map<string, QualType>) returns (q: QualType)
      requires Valid() && InRangeMap(fields, |storage|)
      modifies this`storage, this`objCtx
      ensures Valid() && (storage, q) == InternQ(old(storage), ObjectType(fields))
    {
      hide WellFormed, HasBuiltins, NamedIndex, PointerIndex, ArrayIndex, FuncIndex, ObjectIndex, EnumIndex, Intern;
      LookObject(storage, objCtx, fields);
      if fields in objCtx {
        InternFindsAddress(storage, ObjectType(fields), objCtx[fields]);
        return At(objCtx[fields]);
      }
      InternKeepsWellFormed(storage, ObjectType(fields));
      AppendKeepsConsistent(ObjectType(fields), storage, namedCtx, pointerCtx, arrayCtx, funcCtx, objCtx, enumCtx, impls);
      objCtx := objCtx[fields := |storage|];
      q := At(|storage|);
      storage := storage + [ObjectType(fields)];
    }

    method GetEnumType(members: map<string, QualType>) returns (q: QualType)
      requires Valid() && InRangeMap(members, |storage|)
      modifies this`storage, this`enumCtx
      ensures Valid() && (storage, q) == InternQ(old(storage), EnumType(members))
    {
      hide WellFormed, HasBuiltins, NamedIndex, PointerIndex, ArrayIndex, FuncIndex, ObjectIndex, EnumIndex, Intern;
      LookEnum(storage, enumCtx, members);
      if members in enumCtx {
        InternFindsAddress(storage, EnumType(members), enumCtx[members]);
        return At(enumCtx[members]);
      }
      InternKeepsWellFormed(storage, EnumType(members));
      AppendKeepsConsistent(EnumType(members), storage, namedCtx, pointerCtx, arrayCtx, funcCtx, objCtx, enumCtx, impls);
      enumCtx := enumCtx[members := |storage|];
      q := At(|storage|);
      storage := storage + [EnumType(members)];
    }

    method AddImpl(d: TypeDecl, f: FuncDecl)
      requires Valid() && d in impls
      modifies this`impls
      ensures Valid()
      ensures impls == old(impls)[d := old(impls[d]) + [f]]
    {
      hide WellFormed, HasBuiltins, NamedIndex, PointerIndex, ArrayIndex, FuncIndex, ObjectIndex, EnumIndex;
      impls := impls[d := impls[d] + [f]];
    }
  }

  /** `Intern` with the address as the unqualified pointer a `get` method returns. */
  ghost function InternQ(st: Storage, o: TypeObj): (Storage, QualType) {
    (Intern(st, o).0, At(Intern(st, o).1))
  }
}
