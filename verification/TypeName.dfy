/** The names types are printed under, and a decoder that reads every type back from its name. */
module TypeNames {
  import opened QualTypes
  import opened AST
  import opened TypeStorage

  /** A type as it is printed: leaves are words, and fields have the order the string map iterates in. */
  datatype Shape =
    | Word(text: string)
    | PointerTo(pointee: QualShape)
    | ArrayOf(element: QualShape)
    | Func(params: seq<QualShape>, ret: QualShape)
    | Object(fields: seq<FieldShape>)
    | Enum(members: seq<FieldShape>)

  datatype QualShape = UnknownShape | Qual(mutable: bool, ty: Shape)

  datatype FieldShape = FieldShape(key: string, ty: QualShape)

  // The names, as functions.

  function Name(t: Shape): string
    decreases t
  {
    match t
    case Word(text) => text
    case PointerTo(q) => "*" + QualName(q)
    case ArrayOf(q) => "[" + QualName(q) + "]"
    case Func(ps, r) => "func(" + ParamNames(ps) + ") " + QualName(r)
    case Object(fs) => "{" + FieldNames(fs) + "}"
    case Enum(fs) => "Enum{" + FieldNames(fs) + "}"
  }

  function QualName(q: QualShape): string
    decreases q
  {
    match q
    case UnknownShape => "<unknown>"
    case Qual(mutable, t) => (if mutable then "mut " else "") + Name(t)
  }

  function ParamNames(ps: seq<QualShape>): string
    decreases ps
  {
    if ps == [] then "" else QualName(ps[0]) + if |ps| == 1 then "" else ", " + ParamNames(ps[1..])
  }

  function FieldNames(fs: seq<FieldShape>): string
    decreases fs
  {
    if fs == [] then "" else
      fs[0].key + ": " + QualName(fs[0].ty) + if |fs| == 1 then "" else ", " + FieldNames(fs[1..])
  }

  lemma {:induction false} Ended(r: string)
    ensures r + ParamNames([]) == r && r + FieldNames([]) == r
  {
  }

  lemma {:induction false} ParamStep(ps: seq<QualShape>, i: nat, r: string)
    requires i < |ps|
    ensures r + ParamNames(ps[i..]) ==
            (if i + 1 != |ps| then r + QualName(ps[i]) + ", " else r + QualName(ps[i])) + ParamNames(ps[i + 1..])
  {
    hide QualName;
    assert ps[i..][1..] == ps[i + 1..];
  }

  lemma {:induction false} FieldStep(fs: seq<FieldShape>, i: nat, r: string)
    requires i < |fs|
    ensures r + FieldNames(fs[i..]) ==
            (if i + 1 != |fs| then r + fs[i].key + ": " + QualName(fs[i].ty) + ", "
             else r + fs[i].key + ": " + QualName(fs[i].ty))
            + FieldNames(fs[i + 1..])
  {
    hide QualName;
    assert fs[i..][1..] == fs[i + 1..];
  }

  // The names, as the code builds them.

  method GetTypeName(t: Shape) returns (r: string)
    ensures r == Name(t)
    decreases t, 1
  {
    hide QualName, ParamNames, FieldNames;
    match t {
      case Word(text) => r := text;
      case PointerTo(q) =>
        var name := GetQualName(q);
        r := "*" + name;
      case ArrayOf(q) =>
        var name := GetQualName(q);
        r := "[" + name + "]";
      case Func(ps, q) =>
        assert ps[0..] == ps;
        r := "func(";
        for i := 0 to |ps|
          invariant r + ParamNames(ps[i..]) == "func(" + ParamNames(ps)
        {
          ParamStep(ps, i, r);
          var name := GetQualName(ps[i]);
          r := r + name;
          if i + 1 != |ps| {
            r := r + ", ";
          }
        }
        assert ps[|ps|..] == [];
        Ended(r);
        r := r + ") ";
        var name := GetQualName(q);
        r := r + name;
      case Object(fs) =>
        var names := GetFieldNames(fs);
        r := "{" + names + "}";
      case Enum(fs) =>
        var names := GetFieldNames(fs);
        r := "Enum{" + names + "}";
    }
  }

  /** The loop over fields that object and enum types share. */
  method GetFieldNames(fs: seq<FieldShape>) returns (r: string)
    ensures r == FieldNames(fs)
    decreases fs, 0
  {
    hide QualName, FieldNames;
    assert fs[0..] == fs;
    r := "";
    for i := 0 to |fs|
      invariant r + FieldNames(fs[i..]) == FieldNames(fs)
    {
      FieldStep(fs, i, r);
      r := r + fs[i].key;
      r := r + ": ";
      var name := GetQualName(fs[i].ty);
      r := r + name;
      if i + 1 != |fs| {
        r := r + ", ";
      }
    }
    assert fs[|fs|..] == [];
    Ended(r);
  }

  method GetQualName(q: QualShape) returns (r: string)
    ensures r == QualName(q)
    decreases q, 0
  {
    if q.UnknownShape? {
      return "<unknown>";
    }
    var prefix := "";
    if q.mutable {
      prefix := prefix + "mut ";
    }
    var name := GetTypeName(q.ty);
    r := prefix + name;
  }

  // The decoder.

  predicate IdentStart(c: char) {
    'a' <= c <= 'z' || 'A' <= c <= 'Z' || c == '_'
  }

  predicate IdentChar(c: char) {
    IdentStart(c) || '0' <= c <= '9'
  }

  predicate IsIdent(s: string) {
    s != [] && IdentStart(s[0]) && forall i :: 0 <= i < |s| ==> IdentChar(s[i])
  }

  /** The length of the longest run of identifier characters at the front. */
  function WordLength(s: string): (n: nat)
    ensures n <= |s|
  {
    if s == [] || !IdentChar(s[0]) then 0 else 1 + WordLength(s[1..])
  }

  function DecodeQual(s: string): (r: Option<(QualShape, string)>)
    ensures r.Some? ==> |r.value.1| < |s|
    decreases |s|, 1
  {
    if "<unknown>" <= s then Some((UnknownShape, s[9..]))
    else if "mut " <= s then
      match DecodeType(s[4..])
      case Some((t, rest)) => Some((Qual(true, t), rest))
      case None => None
    else
      match DecodeType(s)
      case Some((t, rest)) => Some((Qual(false, t), rest))
      case None => None
  }

  function DecodeType(s: string): (r: Option<(Shape, string)>)
    ensures r.Some? ==> |r.value.1| < |s|
    decreases |s|, 0
  {
    if "*" <= s then
      match DecodeQual(s[1..])
      case Some((q, rest)) => Some((PointerTo(q), rest))
      case None => None
    else if "[" <= s then
      match DecodeQual(s[1..])
      case Some((q, rest)) => if "]" <= rest then Some((ArrayOf(q), rest[1..])) else None
      case None => None
    else if "func(" <= s then
      match DecodeParams(s[5..])
      case Some((ps, rest)) =>
        if " " <= rest then
          match DecodeQual(rest[1..])
          case Some((q, rest')) => Some((Func(ps, q), rest'))
          case None => None
        else None
      case None => None
    else if "{" <= s then
      match DecodeFields(s[1..])
      case Some((fs, rest)) => Some((Object(fs), rest))
      case None => None
    else if "Enum{" <= s then
      match DecodeFields(s[5..])
      case Some((fs, rest)) => Some((Enum(fs), rest))
      case None => None
    else if WordLength(s) == 0 then None
    else Some((Word(s[..WordLength(s)]), s[WordLength(s)..]))
  }

  function DecodeParams(s: string): (r: Option<(seq<QualShape>, string)>)
    ensures r.Some? ==> |r.value.1| < |s|
    decreases |s|, 3
  {
    if ")" <= s then Some(([], s[1..])) else DecodeMoreParams(s)
  }

  function DecodeMoreParams(s: string): (r: Option<(seq<QualShape>, string)>)
    ensures r.Some? ==> |r.value.1| < |s|
    decreases |s|, 2
  {
    match DecodeQual(s)
    case None => None
    case Some((q, rest)) =>
      if ")" <= rest then Some(([q], rest[1..]))
      else if ", " <= rest then
        match DecodeMoreParams(rest[2..])
        case Some((ps, rest')) => Some(([q] + ps, rest'))
        case None => None
      else None
  }

  function DecodeFields(s: string): (r: Option<(seq<FieldShape>, string)>)
    ensures r.Some? ==> |r.value.1| < |s|
    decreases |s|, 3
  {
    if "}" <= s then Some(([], s[1..])) else DecodeMoreFields(s)
  }

  function DecodeMoreFields(s: string): (r: Option<(seq<FieldShape>, string)>)
    ensures r.Some? ==> |r.value.1| < |s|
    decreases |s|, 2
  {
    var n := WordLength(s);
    if !(": " <= s[n..]) then None
    else
      match DecodeQual(s[n + 2..])
      case None => None
      case Some((q, rest)) =>
        var f := FieldShape(s[..n], q);
        if "}" <= rest then Some(([f], rest[1..]))
        else if ", " <= rest then
          match DecodeMoreFields(rest[2..])
          case Some((fs, rest')) => Some(([f] + fs, rest'))
          case None => None
        else None
  }

  // Every name is read back.

  /** Words and field names are identifiers of the language. */
  predicate Lexical(t: Shape)
    decreases t
  {
    match t
    case Word(text) => IsIdent(text)
    case PointerTo(q) => LexicalQual(q)
    case ArrayOf(q) => LexicalQual(q)
    case Func(ps, r) => (forall p :: p in ps ==> LexicalQual(p)) && LexicalQual(r)
    case Object(fs) => forall f :: f in fs ==> IsIdent(f.key) && LexicalQual(f.ty)
    case Enum(fs) => forall f :: f in fs ==> IsIdent(f.key) && LexicalQual(f.ty)
  }

  predicate LexicalQual(q: QualShape)
    decreases q
  {
    q.Qual? ==> Lexical(q.ty)
  }

  /** What can follow a type inside a name. */
  predicate Follows(rest: string) {
    rest == [] || rest[0] in {',', ')', ']', '}'}
  }

  lemma {:induction false} WordEnds(word: string, rest: string)
    requires (forall i :: 0 <= i < |word| ==> IdentChar(word[i])) && (rest == [] || !IdentChar(rest[0]))
    ensures WordLength(word + rest) == |word|
  {
    if word == [] {
      assert word + rest == rest;
    } else {
      assert (word + rest)[1..] == word[1..] + rest;
      WordEnds(word[1..], rest);
    }
  }

  lemma {:induction false} Split(p: string, s: string)
    ensures p <= p + s && (p + s)[|p|..] == s && (p + s)[..|p|] == p
  {
  }

  /** What a name can start with: never a closing bracket, nor anything a decoder takes for another kind of type. */
  lemma {:induction false} QualStarts(q: QualShape, rest: string)
    requires LexicalQual(q)
    ensures QualName(q) != [] && !(")" <= QualName(q) + rest) && !("}" <= QualName(q) + rest)
  {
    if q.Qual? {
      NameStarts(q.ty);
    }
    assert (QualName(q) + rest)[0] == QualName(q)[0];
  }

  lemma {:induction false} NameStarts(t: Shape)
    requires Lexical(t)
    ensures Name(t) != [] && Name(t)[0] !in {')', '}', '<', ']', ',', ' '}
  {
    hide QualName, ParamNames, FieldNames, LexicalQual;
  }

  /** A plain name is not mistaken for an unknown or a qualified one. */
  lemma {:induction false} NotQualified(t: Shape, rest: string)
    requires Lexical(t) && Follows(rest)
    ensures !("<unknown>" <= Name(t) + rest) && !("mut " <= Name(t) + rest)
  {
    hide QualName, ParamNames, FieldNames, LexicalQual;
    NameStarts(t);
    var s := Name(t) + rest;
    assert s[0] == Name(t)[0];
    if t.Word? {
      WordIsNot(t.text, rest, "mut", ' ');
    }
  }

  /** A word is not mistaken for a keyword followed by a mark. */
  lemma {:induction false} WordIsNot(word: string, rest: string, keyword: string, mark: char)
    requires IsIdent(word) && Follows(rest) && !IdentChar(mark) && mark !in {',', ')', ']', '}'}
    requires forall i :: 0 <= i < |keyword| ==> IdentChar(keyword[i])
    ensures !(keyword + [mark] <= word + rest)
  {
    var s, p := word + rest, keyword + [mark];
    var k := if |word| <= |keyword| then |word| else |keyword|;
    if k < |s| {
      assert s[k] == if |word| <= |keyword| then rest[0] else word[k];
      assert s[k] != p[k];
    }
  }

  lemma {:induction false} DecodesQual(q: QualShape, rest: string)
    requires LexicalQual(q) && Follows(rest)
    ensures DecodeQual(QualName(q) + rest) == Some((q, rest))
    decreases q
  {
    hide DecodeQual, DecodeType, Name, Lexical;
    match q {
      case UnknownShape => DecodesUnknown(rest);
      case Qual(mutable, t) =>
        DecodesType(t, rest);
        NotQualified(t, rest);
        DecodesMarked(t, Name(t) + rest, rest);
        assert QualName(q) + rest == if mutable then "mut " + (Name(t) + rest) else Name(t) + rest;
    }
  }

  lemma {:induction false} DecodesUnknown(rest: string)
    ensures DecodeQual("<unknown>" + rest) == Some((UnknownShape, rest))
  {
    hide DecodeType;
    Split("<unknown>", rest);
  }

  lemma {:induction false} DecodesMarked(t: Shape, s: string, rest: string)
    requires DecodeType(s) == Some((t, rest)) && !("<unknown>" <= s) && !("mut " <= s)
    ensures DecodeQual(s) == Some((Qual(false, t), rest)) && DecodeQual("mut " + s) == Some((Qual(true, t), rest))
  {
    hide DecodeType;
    Split("mut ", s);
    assert ("mut " + s)[0] == 'm';
  }

  lemma {:induction false} DecodesType(t: Shape, rest: string)
    requires Lexical(t) && Follows(rest)
    ensures DecodeType(Name(t) + rest) == Some((t, rest))
    decreases t, 1
  {
    hide DecodeType, DecodeQual, DecodeFields, QualName, ParamNames, FieldNames;
    match t {
      case Word(text) => DecodesWord(text, rest);
      case PointerTo(q) => DecodesQual(q, rest); DecodesPointer(q, rest);
      case ArrayOf(q) => DecodesQual(q, "]" + rest); DecodesArray(q, rest);
      case Func(ps, r) => DecodesFunc(t, rest);
      case Object(fs) => DecodesFields(fs, rest); DecodesBraces(fs, rest);
      case Enum(fs) => DecodesFields(fs, rest); DecodesBraces(fs, rest);
    }
  }

  lemma {:induction false} DecodesWord(text: string, rest: string)
    requires IsIdent(text) && Follows(rest)
    ensures DecodeType(text + rest) == Some((Word(text), rest))
  {
    hide DecodeQual, DecodeParams, DecodeFields;
    WordIsNot(text, rest, "func", '(');
    WordIsNot(text, rest, "Enum", '{');
    WordEnds(text, rest);
    assert (text + rest)[0] == text[0];
    Split(text, rest);
  }

  lemma {:induction false} DecodesPointer(q: QualShape, rest: string)
    requires DecodeQual(QualName(q) + rest) == Some((q, rest))
    ensures DecodeType(Name(PointerTo(q)) + rest) == Some((PointerTo(q), rest))
  {
    hide DecodeQual, QualName;
    var s := QualName(q) + rest;
    assert Name(PointerTo(q)) + rest == "*" + s;
    Split("*", s);
  }

  lemma {:induction false} DecodesArray(q: QualShape, rest: string)
    requires DecodeQual(QualName(q) + ("]" + rest)) == Some((q, "]" + rest))
    ensures DecodeType(Name(ArrayOf(q)) + rest) == Some((ArrayOf(q), rest))
  {
    hide DecodeQual, QualName;
    var s := QualName(q) + ("]" + rest);
    assert Name(ArrayOf(q)) + rest == "[" + s;
    assert ("[" + s)[0] == '[';
    Split("[", s);
    Split("]", rest);
  }

  lemma {:induction false} DecodesBraces(fs: seq<FieldShape>, rest: string)
    requires DecodeFields(FieldNames(fs) + ("}" + rest)) == Some((fs, rest))
    ensures DecodeType(Name(Object(fs)) + rest) == Some((Object(fs), rest))
    ensures DecodeType(Name(Enum(fs)) + rest) == Some((Enum(fs), rest))
  {
    hide DecodeQual, DecodeFields, FieldNames;
    var s := FieldNames(fs) + ("}" + rest);
    assert Name(Object(fs)) + rest == "{" + s && Name(Enum(fs)) + rest == "Enum{" + s;
    assert ("{" + s)[0] == '{' && ("Enum{" + s)[0] == 'E';
    Split("{", s);
    Split("Enum{", s);
  }

  lemma {:induction false} DecodesFunc(t: Shape, rest: string)
    requires t.Func? && Lexical(t) && Follows(rest)
    ensures DecodeType(Name(t) + rest) == Some((t, rest))
    decreases t, 0
  {
    hide DecodeQual, DecodeParams, QualName, ParamNames;
    var tail := " " + (QualName(t.ret) + rest);
    DecodesParams(t.params, tail);
    DecodesQual(t.ret, rest);
    assert Name(t) + rest == "func(" + (ParamNames(t.params) + (")" + tail));
    Split("func(", ParamNames(t.params) + (")" + tail));
    Split(" ", QualName(t.ret) + rest);
    assert ("func(" + (ParamNames(t.params) + (")" + tail)))[0] == 'f';
  }

  lemma {:induction false} DecodesParams(ps: seq<QualShape>, rest: string)
    requires forall p :: p in ps ==> LexicalQual(p)
    ensures DecodeParams(ParamNames(ps) + (")" + rest)) == Some((ps, rest))
    decreases ps, 1
  {
    if ps == [] {
      assert "" + (")" + rest) == ")" + rest;
    } else {
      DecodesMoreParams(ps, rest);
      var more := if |ps| == 1 then "" else ", " + ParamNames(ps[1..]);
      QualStarts(ps[0], more + (")" + rest));
      assert ParamNames(ps) + (")" + rest) == QualName(ps[0]) + (more + (")" + rest));
    }
  }

  lemma {:induction false} DecodesMoreParams(ps: seq<QualShape>, rest: string)
    requires ps != [] && forall p :: p in ps ==> LexicalQual(p)
    ensures DecodeMoreParams(ParamNames(ps) + (")" + rest)) == Some((ps, rest))
    decreases ps, 0
  {
    hide DecodeQual, QualName;
    if |ps| == 1 {
      DecodesQual(ps[0], ")" + rest);
      assert ParamNames(ps) + (")" + rest) == QualName(ps[0]) + (")" + rest);
      Split(")", rest);
      assert ps == [ps[0]];
    } else {
      var tail := ParamNames(ps[1..]) + (")" + rest);
      DecodesQual(ps[0], ", " + tail);
      DecodesMoreParams(ps[1..], rest);
      assert ParamNames(ps) + (")" + rest) == QualName(ps[0]) + (", " + tail);
      Split(", ", tail);
      assert ps == [ps[0]] + ps[1..];
    }
  }

  lemma {:induction false} DecodesFields(fs: seq<FieldShape>, rest: string)
    requires forall f :: f in fs ==> IsIdent(f.key) && LexicalQual(f.ty)
    ensures DecodeFields(FieldNames(fs) + ("}" + rest)) == Some((fs, rest))
    decreases fs, 1
  {
    if fs == [] {
      assert "" + ("}" + rest) == "}" + rest;
    } else {
      DecodesMoreFields(fs, rest);
      assert (FieldNames(fs) + ("}" + rest))[0] == fs[0].key[0];
    }
  }

  lemma {:induction false} KeySplits(key: string, body: string)
    requires IsIdent(key)
    ensures var s := key + (": " + body);
            WordLength(s) == |key| && ": " <= s[|key|..] && s[..|key|] == key && |key| + 2 <= |s| && s[|key| + 2..] == body
  {
    WordEnds(key, ": " + body);
    Split(key, ": " + body);
    Split(": ", body);
  }

  lemma {:induction false} DecodesLastField(key: string, q: QualShape, body: string, rest: string)
    requires IsIdent(key) && DecodeQual(body) == Some((q, "}" + rest))
    ensures DecodeMoreFields(key + (": " + body)) == Some(([FieldShape(key, q)], rest))
  {
    hide DecodeQual, WordLength;
    KeySplits(key, body);
    Split("}", rest);
  }

  lemma {:induction false} DecodesOneField(key: string, q: QualShape, body: string, tail: string,
                                           fs: seq<FieldShape>, rest: string)
    requires IsIdent(key) && DecodeQual(body) == Some((q, ", " + tail)) && DecodeMoreFields(tail) == Some((fs, rest))
    ensures DecodeMoreFields(key + (": " + body)) == Some(([FieldShape(key, q)] + fs, rest))
  {
    hide DecodeQual, WordLength;
    KeySplits(key, body);
    Split(", ", tail);
    assert (", " + tail)[0] == ',';
  }

  lemma {:induction false} Regroup(key: string, name: string, more: string, end: string)
    ensures (key + ": " + name + more) + end == key + (": " + (name + (more + end)))
  {
  }

  lemma {:induction false} DecodesMoreFields(fs: seq<FieldShape>, rest: string)
    requires fs != [] && forall f :: f in fs ==> IsIdent(f.key) && LexicalQual(f.ty)
    ensures DecodeMoreFields(FieldNames(fs) + ("}" + rest)) == Some((fs, rest))
    decreases fs, 0
  {
    hide DecodeQual, DecodeMoreFields, QualName, LexicalQual;
    var key, q := fs[0].key, fs[0].ty;
    assert fs[0] in fs && fs[0] == FieldShape(key, q);
    if |fs| == 1 {
      DecodesQual(q, "}" + rest);
      DecodesLastField(key, q, QualName(q) + ("}" + rest), rest);
      Regroup(key, QualName(q), "", "}" + rest);
      assert "" + ("}" + rest) == "}" + rest;
      assert fs == [fs[0]];
    } else {
      var tail := FieldNames(fs[1..]) + ("}" + rest);
      DecodesQual(q, ", " + tail);
      DecodesMoreFields(fs[1..], rest);
      DecodesOneField(key, q, QualName(q) + (", " + tail), tail, fs[1..], rest);
      Regroup(key, QualName(q), ", " + FieldNames(fs[1..]), "}" + rest);
      assert (", " + FieldNames(fs[1..])) + ("}" + rest) == ", " + tail;
      assert fs == [fs[0]] + fs[1..];
    }
  }

  /** Names are uniquely decodable: different printed types never print alike. */
  lemma {:induction false} NamesDecode(q: QualShape, q': QualShape)
    requires LexicalQual(q) && LexicalQual(q')
    ensures DecodeQual(QualName(q)) == Some((q, ""))
    ensures QualName(q) == QualName(q') <==> q == q'
  {
    DecodesQual(q, "");
    DecodesQual(q', "");
    assert QualName(q) + "" == QualName(q) && QualName(q') + "" == QualName(q');
  }

  // What the names say about types.

  function NativeName(n: NativeType): string {
    match n
    case I1 => "i1"
    case I8 => "i8"
    case I16 => "i16"
    case I32 => "i32"
    case I64 => "i64"
    case F32 => "f32"
    case F64 => "f64"
    case Str => "string"
  }

  const UNIT_NAME := "unit"

  predicate LeafWord(text: string) {
    text == UNIT_NAME || exists n: NativeType :: text == NativeName(n)
  }

  /** No two of these types are spelled alike, and none is spelled like a native type or the unit type. */
  ghost predicate DistinctlySpelled(decls: set<TypeDecl>) {
    && (forall d, d' :: d in decls && d' in decls && d.name == d'.name ==> d == d')
    && (forall d :: d in decls ==> !LeafWord(d.name))
  }

  /** The shape is how the type is printed, for some order of each object's and enum's fields. */
  ghost predicate Presents(decls: set<TypeDecl>, p: QualShape, q: SemQual)
    decreases p
  {
    match p
    case UnknownShape => q == SemQual(None, false)
    case Qual(mutable, t) => q.ty.Some? && q.mutable == mutable && PresentsType(decls, t, q.ty.value)
  }

  ghost predicate PresentsType(decls: set<TypeDecl>, t: Shape, s: SemType)
    decreases t
  {
    match t
    case Word(text) => PresentsLeaf(decls, text, s)
    case PointerTo(p) => s.SPointer? && Presents(decls, p, s.pointee)
    case ArrayOf(p) => s.SArray? && Presents(decls, p, s.element)
    case Func(ps, r) =>
      && s.SFunc? && |ps| == |s.params| && Presents(decls, r, s.ret)
      && forall i :: 0 <= i < |ps| ==> Presents(decls, ps[i], s.params[i])
    case Object(fs) =>
      s.SObject? && KeysOnce(fs, s.fields.Keys) && forall f :: f in fs ==> Presents(decls, f.ty, s.fields[f.key])
    case Enum(fs) =>
      s.SEnum? && KeysOnce(fs, s.members.Keys) && forall f :: f in fs ==> Presents(decls, f.ty, s.members[f.key])
  }

  ghost predicate PresentsLeaf(decls: set<TypeDecl>, text: string, s: SemType) {
    match s
    case SUnit => text == UNIT_NAME
    case SBuiltin(n) => text == NativeName(n)
    case SNamed(d) => d in decls && text == d.name
    case _ => false
  }

  ghost function KeysOf(fs: seq<FieldShape>): (keys: set<string>)
    ensures forall f :: f in fs ==> f.key in keys
  {
    set f | f in fs :: f.key
  }

  /** Every key has one field. */
  ghost predicate KeysOnce(fs: seq<FieldShape>, keys: set<string>)
    ensures KeysOnce(fs, keys) ==> forall f :: f in fs ==> f.key in keys
  {
    KeysOf(fs) == keys && |fs| == |keys|
  }

  lemma {:induction false} LeafIsUnique(decls: set<TypeDecl>, text: string, s: SemType, s': SemType)
    requires DistinctlySpelled(decls) && PresentsLeaf(decls, text, s) && PresentsLeaf(decls, text, s')
    ensures s == s'
  {
    assert LeafWord(UNIT_NAME) && forall n: NativeType :: LeafWord(NativeName(n));
    NativeNamesDiffer();
  }

  lemma {:induction false} NativeNamesDiffer()
    ensures forall n: NativeType, n': NativeType :: NativeName(n) == NativeName(n') ==> n == n'
    ensures forall n: NativeType :: NativeName(n) != UNIT_NAME
  {
  }

  lemma {:induction false} PresentsOne(decls: set<TypeDecl>, p: QualShape, q: SemQual, q': SemQual)
    requires DistinctlySpelled(decls) && Presents(decls, p, q) && Presents(decls, p, q')
    ensures q == q'
    decreases p
  {
    if p.Qual? {
      PresentsOneType(decls, p.ty, q.ty.value, q'.ty.value);
    }
  }

  lemma {:induction false} PresentsOneType(decls: set<TypeDecl>, t: Shape, s: SemType, s': SemType)
    requires DistinctlySpelled(decls) && PresentsType(decls, t, s) && PresentsType(decls, t, s')
    ensures s == s'
    decreases t
  {
    hide DistinctlySpelled, KeysOnce;
    match t {
      case Word(text) => LeafIsUnique(decls, text, s, s');
      case PointerTo(p) => PresentsOne(decls, p, s.pointee, s'.pointee);
      case ArrayOf(p) => PresentsOne(decls, p, s.element, s'.element);
      case Func(ps, r) =>
        PresentsOne(decls, r, s.ret, s'.ret);
        forall i | 0 <= i < |ps|
          ensures s.params[i] == s'.params[i]
        {
          PresentsOne(decls, ps[i], s.params[i], s'.params[i]);
        }
        assert s.params == s'.params;
      case Object(fs) => PresentsOneMap(decls, fs, s.fields, s'.fields);
      case Enum(fs) => PresentsOneMap(decls, fs, s.members, s'.members);
    }
  }

  lemma {:induction false} PresentsOneMap(decls: set<TypeDecl>, fs: seq<FieldShape>, m: map<string, SemQual>,
                                          m': map<string, SemQual>)
    requires DistinctlySpelled(decls) && KeysOnce(fs, m.Keys) && KeysOnce(fs, m'.Keys)
    requires forall f :: f in fs ==> Presents(decls, f.ty, m[f.key]) && Presents(decls, f.ty, m'[f.key])
    ensures m == m'
    decreases fs
  {
    hide DistinctlySpelled;
    forall k | k in m
      ensures m[k] == m'[k]
    {
      var f :| f in fs && f.key == k;
      PresentsOne(decls, f.ty, m[k], m'[k]);
    }
  }

  /** The printer can write the type this way. */
  ghost predicate Written(decls: set<TypeDecl>, p: QualShape, q: SemQual) {
    Presents(decls, p, q) && LexicalQual(p)
  }

  /** Two types printed alike are the same type, whatever the order of their fields. */
  lemma {:induction false} SameNameSameType(decls: set<TypeDecl>, p: QualShape, q: SemQual, p': QualShape, q': SemQual)
    requires DistinctlySpelled(decls) && LexicalQual(p) && LexicalQual(p')
    requires Presents(decls, p, q) && Presents(decls, p', q') && QualName(p) == QualName(p')
    ensures q == q'
  {
    hide Presents, DistinctlySpelled;
    NamesDecode(p, p');
    PresentsOne(decls, p, q, q');
  }

  /** So are two interned pointers. */
  lemma {:induction false} SameNameSamePointer(decls: set<TypeDecl>, st: Storage, p: QualShape, q: QualType,
                                               p': QualShape, q': QualType)
    requires DistinctlySpelled(decls) && LexicalQual(p) && LexicalQual(p') && WellFormed(st) && InRange(q, |st|)
             && InRange(q', |st|)
    requires Presents(decls, p, UnfoldQ(st, q, |st|)) && Presents(decls, p', UnfoldQ(st, q', |st|))
    requires QualName(p) == QualName(p')
    ensures q == q'
  {
    hide Presents, DistinctlySpelled, WellFormed, UnfoldQ;
    SameNameSameType(decls, p, UnfoldQ(st, q, |st|), p', UnfoldQ(st, q', |st|));
    QualTypesAreCanonical(st, q, q');
  }

  /** The spelling condition is needed: a type spelled like another, like a native type or like the unit type is printed
      like it. */
  lemma {:induction false} ElseSomePrintAlike(decls: set<TypeDecl>) returns (p: QualShape, q: SemQual, q': SemQual)
    requires (forall d :: d in decls ==> IsIdent(d.name)) && !DistinctlySpelled(decls)
    ensures LexicalQual(p) && Presents(decls, p, q) && Presents(decls, p, q') && q != q'
  {
    var s, s';
    if d, d' :| d in decls && d' in decls && d.name == d'.name && d != d' {
      s, s' := SNamed(d), SNamed(d');
    } else {
      var d :| d in decls && LeafWord(d.name);
      s := SNamed(d);
      if d.name == UNIT_NAME {
        s' := SUnit;
      } else {
        var n :| d.name == NativeName(n);
        s' := SBuiltin(n);
      }
    }
    p, q, q' := Qual(false, Word(s.decl.name)), SemQual(Some(s), false), SemQual(Some(s'), false);
    assert PresentsLeaf(decls, s.decl.name, s) && PresentsLeaf(decls, s.decl.name, s');
  }

  /** Among types over some declarations, each name belongs to one type exactly if the declarations are distinctly spelled. */
  lemma {:induction false} NamesTellTypesApartExactly(decls: set<TypeDecl>)
    requires forall d :: d in decls ==> IsIdent(d.name)
    ensures DistinctlySpelled(decls) <==>
            forall p, q, p', q' :: Written(decls, p, q) && Written(decls, p', q') && QualName(p) == QualName(p') ==> q == q'
  {
    hide Presents, LexicalQual, QualName, DistinctlySpelled;
    if DistinctlySpelled(decls) {
      forall p, q, p', q' | Written(decls, p, q) && Written(decls, p', q') && QualName(p) == QualName(p')
        ensures q == q'
      {
        SameNameSameType(decls, p, q, p', q');
      }
    } else {
      var p, q, q' := ElseSomePrintAlike(decls);
      assert Written(decls, p, q) && Written(decls, p, q');
    }
  }

  // Which types have a name at all.

  /** Declarations and keys have identifiers for names, and nothing unknown is qualified. */
  ghost predicate Printable(decls: set<TypeDecl>, q: SemQual)
    decreases q
  {
    if q.ty.None? then !q.mutable else PrintableType(decls, q.ty.value)
  }

  ghost predicate PrintableType(decls: set<TypeDecl>, s: SemType)
    decreases s
  {
    match s
    case SUnit => true
    case SBuiltin(_) => true
    case SNamed(d) => d in decls && IsIdent(d.name)
    case SPointer(q) => Printable(decls, q)
    case SArray(q) => Printable(decls, q)
    case SFunc(ps, r) => (forall p :: p in ps ==> Printable(decls, p)) && Printable(decls, r)
    case SObject(fields) => forall k :: k in fields ==> IsIdent(k) && Printable(decls, fields[k])
    case SEnum(members) => forall k :: k in members ==> IsIdent(k) && Printable(decls, members[k])
  }

  lemma {:induction false} HasPresentation(decls: set<TypeDecl>, q: SemQual) returns (p: QualShape)
    requires Printable(decls, q)
    ensures Presents(decls, p, q) && LexicalQual(p)
    decreases q
  {
    if q.ty.None? {
      p := UnknownShape;
    } else {
      var t := HasTypePresentation(decls, q.ty.value);
      p := Qual(q.mutable, t);
    }
  }

  lemma {:induction false} HasTypePresentation(decls: set<TypeDecl>, s: SemType) returns (t: Shape)
    requires PrintableType(decls, s)
    ensures PresentsType(decls, t, s) && Lexical(t)
    decreases s, 1
  {
    LeavesAreIdents();
    match s {
      case SUnit => t := Word(UNIT_NAME);
      case SBuiltin(n) => t := Word(NativeName(n));
      case SNamed(d) => t := Word(d.name);
      case SPointer(q) =>
        var p := HasPresentation(decls, q);
        t := PointerTo(p);
      case SArray(q) =>
        var p := HasPresentation(decls, q);
        t := ArrayOf(p);
      case SFunc(qs, r) =>
        var ps := HavePresentations(decls, s, |qs|);
        var p := HasPresentation(decls, r);
        t := Func(ps, p);
      case SObject(fields) =>
        var fs := HaveFields(decls, s, fields, fields.Keys);
        t := Object(fs);
      case SEnum(members) =>
        var fs := HaveFields(decls, s, members, members.Keys);
        t := Enum(fs);
    }
  }

  lemma {:induction false} LeavesAreIdents()
    ensures IsIdent(UNIT_NAME) && forall n: NativeType :: IsIdent(NativeName(n))
  {
  }

  lemma {:induction false} HavePresentations(decls: set<TypeDecl>, s: SemType, n: nat) returns (ps: seq<QualShape>)
    requires s.SFunc? && n <= |s.params| && forall p :: p in s.params ==> Printable(decls, p)
    ensures |ps| == n && forall i :: 0 <= i < n ==> Presents(decls, ps[i], s.params[i]) && LexicalQual(ps[i])
    decreases s, 0, n
  {
    hide Printable, Presents, LexicalQual;
    ps := [];
    if n > 0 {
      var init := HavePresentations(decls, s, n - 1);
      var p := HasPresentation(decls, s.params[n - 1]);
      ps := init + [p];
    }
  }

  lemma {:induction false} HaveFields(decls: set<TypeDecl>, s: SemType, m: map<string, SemQual>, keys: set<string>)
    returns (fs: seq<FieldShape>)
    requires (s.SObject? && m == s.fields) || (s.SEnum? && m == s.members)
    requires keys <= m.Keys && forall k :: k in keys ==> IsIdent(k) && Printable(decls, m[k])
    ensures KeysOnce(fs, keys)
    ensures forall f :: f in fs ==> Presents(decls, f.ty, m[f.key]) && IsIdent(f.key) && LexicalQual(f.ty)
    decreases s, 0, |keys|
  {
    hide Printable, Presents, LexicalQual, IsIdent;
    fs := [];
    if k :| k in keys {
      var others := HaveFields(decls, s, m, keys - {k});
      var p := HasPresentation(decls, m[k]);
      fs := others + [FieldShape(k, p)];
      assert KeysOf(fs) == KeysOf(others) + {k};
    }
  }

  /** A type has a name exactly if it is printable; by the code's loops, for any order of its fields. */
  lemma {:induction false} HasNameExactly(decls: set<TypeDecl>, q: SemQual)
    ensures Printable(decls, q) <==> exists p :: Written(decls, p, q)
  {
    if Printable(decls, q) {
      var p := HasPresentation(decls, q);
      assert Written(decls, p, q);
    }
    if p :| Written(decls, p, q) {
      PresentedIsPrintable(decls, p, q);
    }
  }

  lemma {:induction false} PresentedIsPrintable(decls: set<TypeDecl>, p: QualShape, q: SemQual)
    requires Presents(decls, p, q) && LexicalQual(p)
    ensures Printable(decls, q)
    decreases p
  {
    if p.Qual? {
      PresentedTypeIsPrintable(decls, p.ty, q.ty.value);
    }
  }

  lemma {:induction false} PresentedTypeIsPrintable(decls: set<TypeDecl>, t: Shape, s: SemType)
    requires PresentsType(decls, t, s) && Lexical(t)
    ensures PrintableType(decls, s)
    decreases t
  {
    hide Printable, IsIdent;
    match t {
      case Word(_) =>
      case PointerTo(p) => PresentedIsPrintable(decls, p, s.pointee);
      case ArrayOf(p) => PresentedIsPrintable(decls, p, s.element);
      case Func(ps, r) =>
        PresentedIsPrintable(decls, r, s.ret);
        forall i | 0 <= i < |ps|
          ensures Printable(decls, s.params[i])
        {
          PresentedIsPrintable(decls, ps[i], s.params[i]);
        }
      case Object(fs) => PresentedFieldsArePrintable(decls, fs, s.fields);
      case Enum(fs) => PresentedFieldsArePrintable(decls, fs, s.members);
    }
  }

  lemma {:induction false} PresentedFieldsArePrintable(decls: set<TypeDecl>, fs: seq<FieldShape>, m: map<string, SemQual>)
    requires KeysOnce(fs, m.Keys)
    requires forall f :: f in fs ==> Presents(decls, f.ty, m[f.key]) && IsIdent(f.key) && LexicalQual(f.ty)
    ensures forall k :: k in m ==> IsIdent(k) && Printable(decls, m[k])
    decreases fs
  {
    hide Printable, Presents, LexicalQual, IsIdent;
    forall k | k in m
      ensures IsIdent(k) && Printable(decls, m[k])
    {
      assert k in KeysOf(fs);
      var f :| f in fs && f.key == k;
      PresentedIsPrintable(decls, f.ty, m[k]);
    }
  }
}
