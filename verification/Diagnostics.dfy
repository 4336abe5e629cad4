/** Where the passes report to. */
module Diagnostics {

  datatype Diagnostic =
    | TypeRedefinition(name: string)
    | UndefinedTypeReference(name: string)
    | ReferenceIsNotAType(name: string)
    | FunctionNameTaken(name: string)
    | OverloadClash(name: string)
    | ImplQualifiersIgnored
    | ImplOnNonType
    | Redefinition(name: string)
    | CannotDefaultInitialize
    | FailedImport(path: string)
    | DuplicateField(name: string)
    | DuplicateMember(name: string)
    | PreviouslyDeclared

  class DiagnosticConsumer {
    var emitted: seq<Diagnostic>

    constructor ()
      ensures emitted == []
    {
      emitted := [];
    }

    method Emit(d: Diagnostic)
      modifies this
      ensures emitted == old(emitted) + [d]
    {
      emitted := emitted + [d];
    }
  }
}
