/** Which repeated field and member names are reported: those of every object and enum type an expression reaches. */
module DuplicateReports {
  import opened AST
  import opened NormalForms
  import opened AliasExpansion
  import opened Diagnostics
  import opened MaterializeTypes

  /** The expression and the expressions inside it. */
  ghost function Parts(e: ASTType): set<ASTType> {
    {e} +
    match e
    case ASTBuiltinType(_, _) => {}
    case ASTDeclTypeRef(_, _) => {}
    case ASTQualType(t, _) => Parts(t)
    case ASTPointerType(t, _, _) => Parts(t)
    case ASTArrayType(t, _) => Parts(t)
    case ASTFunctionType(ps, r, _) => (set p, x | p in ps && x in Parts(p) :: x) + Parts(r)
    case ASTObjectType(fs, _) => set f, x | f in fs && x in Parts(f.ty) :: x
    case ASTEnumType(fs, _) => set f, x | f in fs && x in Parts(f.ty) :: x
  }

  lemma {:induction false} LeavesAreParts(e: ASTType)
    ensures Leaves(e) <= Parts(e)
  {
    match e {
      case ASTQualType(t, _) => LeavesAreParts(t);
      case ASTPointerType(t, _, _) => LeavesAreParts(t);
      case ASTArrayType(t, _) => LeavesAreParts(t);
      case ASTFunctionType(ps, r, _) =>
        forall p | p in ps ensures Leaves(p) <= Parts(p) { LeavesAreParts(p); }
        LeavesAreParts(r);
      case ASTObjectType(fs, _) => forall f | f in fs ensures Leaves(f.ty) <= Parts(f.ty) { LeavesAreParts(f.ty); }
      case ASTEnumType(fs, _) => forall f | f in fs ensures Leaves(f.ty) <= Parts(f.ty) { LeavesAreParts(f.ty); }
      case _ =>
    }
  }

  /** The field's name was seen before, or an earlier field has it. */
  ghost predicate Again(seen: set<string>, fs: seq<Field>, j: nat)
    requires j < |fs|
  {
    fs[j].name in seen || exists i :: 0 <= i < j && fs[i].name == fs[j].name
  }

  ghost predicate RepeatsName(seen: set<string>, fs: seq<Field>, name: string) {
    exists j :: 0 <= j < |fs| && Again(seen, fs, j) && fs[j].name == name
  }

  /** The report is for a field of an object type, or a member of an enum type, that repeats the name of an earlier one. */
  ghost predicate ReportsRepeated(e: ASTType, r: Diagnostic) {
    match e
    case ASTObjectType(fs, _) => r.DuplicateField? && RepeatsName({}, fs, r.name)
    case ASTEnumType(fs, _) => r.DuplicateMember? && RepeatsName({}, fs, r.name)
    case _ => false
  }

  /** A walk from alias to alias leads to such a type. */
  ghost predicate WalkToRepeated(env: Env, e: ASTType, walk: seq<string>, r: Diagnostic)
    decreases |walk|
  {
    if walk == [] then exists part :: part in Parts(e) && ReportsRepeated(part, r)
    else Mentions(env, e, walk[0]) && WalkToRepeated(env, env[walk[0]].declaredType, walk[1..], r)
  }

  /** What is reported is there; and if the expression has a known type, everything that is there is reported. */
  lemma {:induction false} DuplicatesExactly(env: Env, e: ASTType, r: Diagnostic)
    ensures r in Duplicates(env, {}, e) ==> exists walk :: WalkToRepeated(env, e, walk, r)
    ensures NormalForm(env, e).Known? && (exists walk :: WalkToRepeated(env, e, walk, r)) ==> r in Duplicates(env, {}, e)
  {
    hide Duplicates, WalkToRepeated;
    if r in Duplicates(env, {}, e) {
      var walk := ReportedHasWalk(env, {}, e, r);
    }
    if walk :| NormalForm(env, e).Known? && WalkToRepeated(env, e, walk, r) {
      WalkIsReported(env, {}, e, walk, r);
    }
  }

  // Whatever is reported is there.

  lemma {:induction false} WalkFromInside(env: Env, part: ASTType, e: ASTType, walk: seq<string>, r: Diagnostic)
    requires Parts(part) <= Parts(e) && Leaves(part) <= Leaves(e) && WalkToRepeated(env, part, walk, r)
    ensures WalkToRepeated(env, e, walk, r)
  {
    if walk != [] {
      var l :| l in Leaves(part) && ToAlias(env, l) && l.symbol == walk[0];
      assert l in Leaves(e);
    }
  }

  lemma {:induction false} ReportedHasWalk(env: Env, open: set<TypeDecl>, e: ASTType, r: Diagnostic)
    returns (walk: seq<string>)
    requires r in Duplicates(env, open, e)
    ensures WalkToRepeated(env, e, walk, r)
    decreases Aliases(env) - open, e, 1
  {
    hide WalkToRepeated, Parts, Leaves, Normal;
    match e {
      case ASTDeclTypeRef(s, _) =>
        var rest := ReportedHasWalk(env, open + {env[s]}, env[s].declaredType, r);
        walk := [s] + rest;
        AliasFirst(env, e, rest, r);
      case ASTQualType(t, _) =>
        walk := ReportedHasWalk(env, open, t, r);
        InsideElement(e);
        WalkFromInside(env, t, e, walk, r);
      case ASTPointerType(t, _, _) =>
        walk := ReportedHasWalk(env, open, t, r);
        InsideElement(e);
        WalkFromInside(env, t, e, walk, r);
      case ASTArrayType(t, _) =>
        walk := ReportedHasWalk(env, open, t, r);
        InsideElement(e);
        WalkFromInside(env, t, e, walk, r);
      case ASTFunctionType(ps, ret, _) =>
        var part := ret;
        if r in DuplicatesAll(env, open, ps) {
          part, walk := ReportedAmong(env, open, ps, r);
        } else {
          walk := ReportedHasWalk(env, open, ret, r);
        }
        InsideFunction(e, part);
        WalkFromInside(env, part, e, walk, r);
      case ASTObjectType(fs, _) =>
        AllFields(fs);
        walk := ReportedInFields(env, open, 0, fs, e, r);
      case ASTEnumType(fs, _) =>
        AllFields(fs);
        walk := ReportedInFields(env, open, 0, fs, e, r);
    }
  }

  lemma {:induction false} InsideElement(e: ASTType)
    requires e.ASTQualType? || e.ASTPointerType? || e.ASTArrayType?
    ensures Parts(e.element) <= Parts(e) && Leaves(e.element) <= Leaves(e)
  {
  }

  lemma {:induction false} InsideFunction(e: ASTType, part: ASTType)
    requires e.ASTFunctionType? && (part in e.params || part == e.ret)
    ensures Parts(part) <= Parts(e) && Leaves(part) <= Leaves(e)
  {
  }

  lemma {:induction false} AllFields(fs: seq<Field>)
    ensures fs[..0] == [] && fs[0..] == fs && NamesOf([]) == {}
  {
  }

  lemma {:induction false} AliasFirst(env: Env, e: ASTType, rest: seq<string>, r: Diagnostic)
    requires ToAlias(env, e) && WalkToRepeated(env, env[e.symbol].declaredType, rest, r)
    ensures WalkToRepeated(env, e, [e.symbol] + rest, r)
  {
    assert e in Leaves(e) && ([e.symbol] + rest)[1..] == rest;
  }

  lemma {:induction false} ReportedAmong(env: Env, open: set<TypeDecl>, ps: seq<ASTType>, r: Diagnostic)
    returns (p: ASTType, walk: seq<string>)
    requires r in DuplicatesAll(env, open, ps)
    ensures p in ps && WalkToRepeated(env, p, walk, r)
    decreases Aliases(env) - open, ps, 0
  {
    hide WalkToRepeated;
    if r in Duplicates(env, open, ps[0]) {
      p := ps[0];
      walk := ReportedHasWalk(env, open, p, r);
    } else {
      p, walk := ReportedAmong(env, open, ps[1..], r);
    }
  }

  ghost function NamesOf(fs: seq<Field>): set<string> {
    set f | f in fs :: f.name
  }

  predicate HasFields(e: ASTType) {
    e.ASTObjectType? || e.ASTEnumType?
  }

  /** `e` is the object or enum type with these fields, after `k` others. */
  lemma {:induction false} ReportedInFields(env: Env, open: set<TypeDecl>, k: nat, fs: seq<Field>, e: ASTType, r: Diagnostic)
    returns (walk: seq<string>)
    requires HasFields(e) && k <= |e.fields| && fs == e.fields[k..]
    requires r in DuplicatesFields(env, open, NamesOf(e.fields[..k]), fs, e.ASTEnumType?)
    ensures WalkToRepeated(env, e, walk, r)
    decreases Aliases(env) - open, fs, 0
  {
    hide WalkToRepeated, Duplicates, Normal;
    var seen, f := NamesOf(e.fields[..k]), fs[0];
    assert f == e.fields[k] && f in e.fields;
    if r in Duplicates(env, open, f.ty) {
      walk := ReportedHasWalk(env, open, f.ty, r);
      WalkFromInside(env, f.ty, e, walk, r);
    } else if r in DuplicateReport(f.name, seen, e.ASTEnumType?) {
      walk := [];
      OwnFieldRepeats(env, e, k, r);
    } else {
      NextField(e.fields, k);
      walk := ReportedInFields(env, open, k + 1, fs[1..], e, r);
    }
  }

  lemma {:induction false} NextField(fs: seq<Field>, k: nat)
    requires k < |fs|
    ensures NamesOf(fs[..k + 1]) == NamesOf(fs[..k]) + {fs[k].name} && fs[k..][1..] == fs[k + 1..]
  {
    assert fs[..k + 1] == fs[..k] + [fs[k]];
  }

  lemma {:induction false} OwnFieldRepeats(env: Env, e: ASTType, k: nat, r: Diagnostic)
    requires HasFields(e) && k < |e.fields|
    requires r in DuplicateReport(e.fields[k].name, NamesOf(e.fields[..k]), e.ASTEnumType?)
    ensures WalkToRepeated(env, e, [], r)
  {
    var f :| f in e.fields[..k] && f.name == e.fields[k].name;
    var i :| 0 <= i < k && e.fields[..k][i] == f;
    assert Again({}, e.fields, k);
    assert e in Parts(e) && ReportsRepeated(e, r);
  }

  // In an expression with a known type everything that is there is reported.

  lemma {:induction false} PartKnown(env: Env, open: set<TypeDecl>, e: ASTType, part: ASTType)
    requires Normal(env, open, e).Known? && part in Parts(e)
    ensures Normal(env, open, part).Known?
    decreases e
  {
    if part != e {
      match e {
        case ASTQualType(t, _) => PartKnown(env, open, t, part);
        case ASTPointerType(t, _, _) => PartKnown(env, open, t, part);
        case ASTArrayType(t, _) => PartKnown(env, open, t, part);
        case ASTFunctionType(ps, r, _) =>
          if part in Parts(r) {
            PartKnown(env, open, r, part);
          } else {
            var p :| p in ps && part in Parts(p);
            KnownAmong(env, open, ps, p);
            PartKnown(env, open, p, part);
          }
        case ASTObjectType(fs, _) =>
          var f :| f in fs && part in Parts(f.ty);
          KnownInFields(env, open, fs, f);
          PartKnown(env, open, f.ty, part);
        case ASTEnumType(fs, _) =>
          var f :| f in fs && part in Parts(f.ty);
          KnownInFields(env, open, fs, f);
          PartKnown(env, open, f.ty, part);
      }
    }
  }

  lemma {:induction false} PartReported(env: Env, open: set<TypeDecl>, e: ASTType, part: ASTType, r: Diagnostic)
    requires Normal(env, open, e).Known? && part in Parts(e) && r in Duplicates(env, open, part)
    ensures r in Duplicates(env, open, e)
    decreases e, 1
  {
    if part != e {
      match e {
        case ASTQualType(t, _) => PartReported(env, open, t, part, r);
        case ASTPointerType(t, _, _) => PartReported(env, open, t, part, r);
        case ASTArrayType(t, _) => PartReported(env, open, t, part, r);
        case ASTFunctionType(ps, ret, _) =>
          if part in Parts(ret) {
            PartReported(env, open, ret, part, r);
          } else {
            PartReportedAmong(env, open, ps, part, r);
          }
        case ASTObjectType(fs, _) => PartReportedInFields(env, open, {}, fs, false, part, r);
        case ASTEnumType(fs, _) => PartReportedInFields(env, open, {}, fs, true, part, r);
      }
    }
  }

  lemma {:induction false} PartReportedAmong(env: Env, open: set<TypeDecl>, ps: seq<ASTType>, part: ASTType, r: Diagnostic)
    requires NormalAll(env, open, ps).Known? && r in Duplicates(env, open, part)
    requires exists p :: p in ps && part in Parts(p)
    ensures r in DuplicatesAll(env, open, ps)
    decreases ps, 0
  {
    if part in Parts(ps[0]) {
      PartReported(env, open, ps[0], part, r);
    } else {
      PartReportedAmong(env, open, ps[1..], part, r);
    }
  }

  lemma {:induction false} PartReportedInFields(env: Env, open: set<TypeDecl>, seen: set<string>, fs: seq<Field>,
                                                inEnum: bool, part: ASTType, r: Diagnostic)
    requires NormalFields(env, open, fs).Known? && r in Duplicates(env, open, part)
    requires exists f :: f in fs && part in Parts(f.ty)
    ensures r in DuplicatesFields(env, open, seen, fs, inEnum)
    decreases fs, 0
  {
    if part in Parts(fs[0].ty) {
      PartReported(env, open, fs[0].ty, part, r);
    } else {
      PartReportedInFields(env, open, seen + {fs[0].name}, fs[1..], inEnum, part, r);
    }
  }

  lemma {:induction false} RepeatIsReported(env: Env, open: set<TypeDecl>, seen: set<string>, fs: seq<Field>, inEnum: bool,
                                            j: nat)
    requires NormalFields(env, open, fs).Known? && j < |fs| && Again(seen, fs, j)
    ensures (if inEnum then DuplicateMember(fs[j].name) else DuplicateField(fs[j].name))
            in DuplicatesFields(env, open, seen, fs, inEnum)
    decreases j
  {
    if j > 0 {
      var rest := fs[1..];
      assert rest[j - 1] == fs[j] && forall i :: 1 <= i < j ==> rest[i - 1] == fs[i];
      RepeatIsReported(env, open, seen + {fs[0].name}, rest, inEnum, j - 1);
    }
  }

  lemma {:induction false} OwnReported(env: Env, open: set<TypeDecl>, e: ASTType, r: Diagnostic)
    requires Normal(env, open, e).Known? && ReportsRepeated(e, r)
    ensures r in Duplicates(env, open, e)
  {
    var j :| 0 <= j < |e.fields| && Again({}, e.fields, j) && e.fields[j].name == r.name;
    RepeatIsReported(env, open, {}, e.fields, e.ASTEnumType?, j);
  }

  lemma {:induction false} WalkIsReported(env: Env, open: set<TypeDecl>, e: ASTType, walk: seq<string>, r: Diagnostic)
    requires Normal(env, open, e).Known? && WalkToRepeated(env, e, walk, r)
    ensures r in Duplicates(env, open, e)
    decreases |walk|
  {
    if walk == [] {
      var part :| part in Parts(e) && ReportsRepeated(part, r);
      PartKnown(env, open, e, part);
      OwnReported(env, open, part, r);
      PartReported(env, open, e, part, r);
    } else {
      var l :| l in Leaves(e) && ToAlias(env, l) && l.symbol == walk[0];
      LeavesAreParts(e);
      PartKnown(env, open, e, l);
      WalkIsReported(env, open + {env[l.symbol]}, env[l.symbol].declaredType, walk[1..], r);
      PartReported(env, open, e, l, r);
    }
  }
}
