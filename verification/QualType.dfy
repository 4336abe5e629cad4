/** Optional values, and the qualified type pointers that every other module passes around. */
module QualTypes {

  datatype Option<+T> = None | Some(value: T)

  datatype NativeType = I1 | I8 | I16 | I32 | I64 | F32 | F64 | Str

  /** The address of a type object: its position in the type context's storage. */
  type Address = nat

  /** A possibly null pointer to a type object, with the one qualifier the language has. */
  datatype QualType = QualType(ty: Option<Address>, mutable: bool) {

    predicate IsUnknown() {
      ty.None?
    }

    predicate HasQualifier() {
      mutable
    }

    function Mut(m: bool): QualType {
      this.(mutable := m)
    }
  }

  /** The default-constructed qualified type; also the reserved empty key of the pointer and array tables. */
  const UNKNOWN := QualType(None, false)

  function At(p: Address): QualType {
    QualType(Some(p), false)
  }
}
