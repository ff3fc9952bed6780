/**
 * Visibility gating: the `VisibleOn`/`InvisibleOn` expressions `Name|Value` and
 * `#Property|Value`, the conversion of the literal into the member's type, the
 * comparison with the member's live value, and the decision whether a field
 * enters the form at all.
 */
module Visibility {
  import opened Wrappers
  import opened Text
  import opened Schema
  import opened Eligibility

  /** A parsed expression: the member it names and the literal it compares with. */
  datatype MemberRef = FieldRef(name: string, literal: string) | PropRef(name: string, literal: string)

  /**
   * Splits the expression on '|'; anything but exactly two pieces is malformed.
   * A leading '#' selects a property, whose name loses every leading '#'.
   */
  function ParseExpr(expr: string): (r: Result<MemberRef, Error>)
    ensures r.Err? <==> Occurrences(expr, '|') != 1
    ensures r.Err? ==> r.error == MalformedExpression(expr)
    ensures r.Ok? ==> (r.value.FieldRef? <==> !StartsWith(expr, "#"))
    ensures r.Ok? ==> '|' !in r.value.name && '|' !in r.value.literal
    ensures r.Ok? && r.value.PropRef? ==> r.value.name == [] || r.value.name[0] != '#'
  {
    var parts := Split(expr, '|');
    SplitShape(expr, '|');
    if |parts| != 2 then Err(MalformedExpression(expr))
    else if !StartsWith(expr, "#") then Ok(FieldRef(parts[0], parts[1]))
    else Ok(PropRef(TrimStartChar(parts[0], '#'), parts[1]))
  }

  /** The expression text a reference is written as. */
  function RenderExpr(m: MemberRef): string {
    match m
    case FieldRef(n, l) => n + "|" + l
    case PropRef(n, l) => "#" + n + "|" + l
  }

  /** A reference that can be written down: no '|' in either part and no leading '#' in the name. */
  predicate Writable(m: MemberRef) {
    '|' !in m.name && '|' !in m.literal && (m.name == [] || m.name[0] != '#')
  }

  /** Writing a reference down and parsing it gives the reference back. */
  lemma ParseRenderExpr(m: MemberRef)
    requires Writable(m)
    ensures ParseExpr(RenderExpr(m)) == Ok(m)
  {
    match m
    case FieldRef(n, l) =>
      SplitAround(n, '|', l);
      assert n + "|" + l == n + ['|'] + l;
    case PropRef(n, l) =>
      var s := "#" + n + "|" + l;
      assert s == ("#" + n) + ['|'] + l;
      SplitAround("#" + n, '|', l);
      assert StartsWith(s, "#") by { assert s[..1] == "#"; }
      assert ("#" + n)[1..] == n;
  }

  /** A parsed field reference is exactly the text it came from. */
  lemma RenderParseField(expr: string)
    requires ParseExpr(expr).Ok? && ParseExpr(expr).value.FieldRef?
    ensures RenderExpr(ParseExpr(expr).value) == expr
  {
    var parts := Split(expr, '|');
    SplitShape(expr, '|');
    SplitJoin(expr, '|');
    assert parts[1..] == [parts[1]];
    assert Join(parts, '|') == parts[0] + ['|'] + parts[1];
  }

  /** First field declared under a name (`Type.GetField`). */
  function FindField(fs: seq<FieldDecl>, name: string): (r: Option<nat>)
    ensures r.Some? ==> r.value < |fs| && fs[r.value].name == name
    ensures r.Some? ==> forall j :: 0 <= j < r.value ==> fs[j].name != name
    ensures r.None? ==> forall j :: 0 <= j < |fs| ==> fs[j].name != name
  {
    if fs == [] then None
    else if fs[0].name == name then Some(0)
    else match FindField(fs[1..], name)
      case Some(k) => Some(k + 1)
      case None => None
  }

  /** First property declared under a name (`Type.GetProperty`). */
  function FindProp(ps: seq<PropDecl>, name: string): (r: Option<nat>)
    ensures r.Some? ==> r.value < |ps| && ps[r.value].name == name
    ensures r.Some? ==> forall j :: 0 <= j < r.value ==> ps[j].name != name
    ensures r.None? ==> forall j :: 0 <= j < |ps| ==> ps[j].name != name
  {
    if ps == [] then None
    else if ps[0].name == name then Some(0)
    else match FindProp(ps[1..], name)
      case Some(k) => Some(k + 1)
      case None => None
  }

  function FindMember(ms: seq<EnumMember>, name: string): (r: Option<nat>)
    ensures r.Some? ==> r.value < |ms| && ms[r.value].name == name
    ensures r.Some? ==> forall j :: 0 <= j < r.value ==> ms[j].name != name
    ensures r.None? ==> forall j :: 0 <= j < |ms| ==> ms[j].name != name
  {
    if ms == [] then None
    else if ms[0].name == name then Some(0)
    else match FindMember(ms[1..], name)
      case Some(k) => Some(k + 1)
      case None => None
  }

  /** The value of the member named `t`, if there is one. */
  function MemberValue(d: EnumDecl, t: string): (r: Option<int>)
    ensures r.Some? <==> FindMember(d.members, t).Some?
    ensures r.Some? ==> r.value == d.members[FindMember(d.members, t).value].value
  {
    match FindMember(d.members, t)
    case Some(j) => Some(d.members[j].value)
    case None => None
  }

  /** Text `Enum.Parse` first tries as a number: it starts with a digit or a sign. */
  predicate NumberLike(t: string) {
    |t| > 0 && (IsDigit(t[0]) || t[0] == '-' || t[0] == '+')
  }

  /**
   * `Enum.Parse` on a single value: the text is trimmed of white space; text
   * that starts with a digit or a sign is converted to the underlying integral
   * type, where a number outside its range raises; text that is not a number
   * must be a member's name, with the letter case as declared.
   */
  function EnumParse(d: EnumDecl, s: string): Option<int> {
    var t := TrimBy(s, IsSpace);
    if |t| == 0 then None
    else if NumberLike(t) then
      match ParseSigned(t)
      case Some(n) => if InIntegralRange(n, d.signed, d.width) then Some(n) else None
      case None => MemberValue(d, t)
    else MemberValue(d, t)
  }

  /**
   * A number parses exactly when the underlying type holds it; any other text
   * parses exactly when it names a member, to that member's value; blank text
   * does not parse.
   */
  lemma EnumParseCases(d: EnumDecl, s: string)
    ensures var t := TrimBy(s, IsSpace);
      NumberLike(t) && ParseSigned(t).Some? ==>
        EnumParse(d, s) == if InIntegralRange(ParseSigned(t).value, d.signed, d.width) then ParseSigned(t) else None
    ensures var t := TrimBy(s, IsSpace);
      |t| > 0 && (!NumberLike(t) || ParseSigned(t).None?) ==>
        (EnumParse(d, s).Some? <==> FindMember(d.members, t).Some?) &&
        (EnumParse(d, s).Some? ==> EnumParse(d, s).value == d.members[FindMember(d.members, t).value].value)
    ensures |TrimBy(s, IsSpace)| == 0 ==> EnumParse(d, s).None?
  {
  }

  /** A printed integer names the enum value it spells exactly when the underlying type holds it. */
  lemma EnumParseNumber(d: EnumDecl, n: int)
    ensures EnumParse(d, IntToString(n)) == if InIntegralRange(n, d.signed, d.width) then Some(n) else None
  {
    var s := IntToString(n);
    assert !IsSpace(s[0]) && !IsSpace(s[|s| - 1]) by {
      if n < 0 {
        assert s[|s| - 1] == s[1..][|s| - 2];
      }
    }
    NoTrimBy(s, IsSpace);
    NoTrimBy(s, IsWhite);
    ParseIntegerOfIntToString(n);
  }

  /** The member types an expression may name: primitives and enums, and strings when admitted. */
  predicate Comparable(ft: FieldType, admitStrings: bool) {
    ft.Prim? || ft.Enum? || (admitStrings && ft.Str?)
  }

  /**
   * The literal converted into the member's type, as `Enum.Parse`, the string
   * branch and `Convert.ChangeType` do it.
   */
  function Literal(ft: FieldType, lit: string): (r: Result<Value, Error>)
    requires ft.Prim? || ft.Enum? || ft.Str?
    ensures r.Ok? ==> HasType(r.value, ft)
  {
    match ft
    case Str => Ok(VStr(lit))
    case Enum(d) => EnumLiteral(d, lit)
    case Prim(k) => PrimLiteral(k, lit)
  }

  /** `Enum.Parse(type, lit)` for an enum member. */
  function EnumLiteral(d: EnumDecl, lit: string): (r: Result<Value, Error>)
    ensures r.Ok? ==> HasType(r.value, Enum(d))
    ensures r.Ok? <==> EnumParse(d, lit).Some?
  {
    var e := EnumParse(d, lit);
    if e.Some? then Ok(VEnum(e.value)) else Err(LiteralNotParsed(lit))
  }

  /** `Convert.ChangeType(lit, type)` for a primitive type. */
  function PrimLiteral(k: PrimKind, lit: string): (r: Result<Value, Error>)
    ensures r.Ok? ==> HasType(r.value, Prim(k))
  {
    match k
    case Bool =>
      (match ParseBool(lit)
       case Some(b) => Ok(VBool(b))
       case None => Err(LiteralNotParsed(lit)))
    case Integral(sg, w) => IntegralLiteral(sg, w, lit)
    case Float => DecimalLiteral(lit)
    case Double => DecimalLiteral(lit)
    case Char => if |lit| == 1 then Ok(VChar(lit[0])) else Err(LiteralNotParsed(lit))
  }

  /** `Convert.ChangeType(lit, type)` for an integral member: an integer of the member's range. */
  function IntegralLiteral(sg: bool, w: Width, lit: string): (r: Result<Value, Error>)
    ensures r.Ok? <==> ParseInteger(lit).Some? && InIntegralRange(ParseInteger(lit).value, sg, w)
    ensures r.Ok? ==> r.value == VInt(ParseInteger(lit).value)
  {
    match ParseInteger(lit)
    case Some(n) => if InIntegralRange(n, sg, w) then Ok(VInt(n)) else Err(LiteralNotParsed(lit))
    case None => Err(LiteralNotParsed(lit))
  }

  /** `Convert.ChangeType(lit, type)` for a `float` or `double` member. */
  function DecimalLiteral(lit: string): (r: Result<Value, Error>)
    ensures r.Ok? <==> ParseDecimal(lit).Some?
    ensures r.Ok? ==> r.value == VReal(ParseDecimal(lit).value)
  {
    match ParseDecimal(lit)
    case Some(x) => Ok(VReal(x))
    case None => Err(LiteralNotParsed(lit))
  }

  /** A literal that does not convert is reported as such, naming the literal. */
  lemma LiteralRejected(ft: FieldType, lit: string)
    requires ft.Prim? || ft.Enum? || ft.Str?
    ensures Literal(ft, lit).Err? ==> Literal(ft, lit).error == LiteralNotParsed(lit)
  {
  }

  /** A string member takes the literal as it is. */
  lemma LiteralString(lit: string)
    ensures Literal(Str, lit) == Ok(VStr(lit))
  {
  }

  /** An integral member takes exactly the integers of its range. */
  lemma LiteralIntegral(ft: FieldType, lit: string)
    requires ft.Prim? && ft.kind.Integral?
    ensures Literal(ft, lit).Ok? <==> ParseInteger(lit).Some? && InIntegralRange(ParseInteger(lit).value, ft.kind.signed, ft.kind.width)
    ensures Literal(ft, lit).Ok? ==> Literal(ft, lit) == Ok(VInt(ParseInteger(lit).value))
  {
    var n := ParseInteger(lit);
    assert Literal(ft, lit) == if n.Some? && InIntegralRange(n.value, ft.kind.signed, ft.kind.width) then Ok(VInt(n.value)) else Err(LiteralNotParsed(lit));
  }

  /** The member's type checked, the literal converted, then the live value compared with it. */
  function Compare(name: string, ft: FieldType, lit: string, live: Result<Value, Error>, admitStrings: bool): (r: Result<bool, Error>)
    ensures !Comparable(ft, admitStrings) ==> r == Err(UnsupportedMemberType(name))
    ensures r.Ok? ==> Comparable(ft, admitStrings) && Literal(ft, lit).Ok? && live.Ok?
                      && r.value == (live.value == Literal(ft, lit).value)
  {
    if !Comparable(ft, admitStrings) then Err(UnsupportedMemberType(name))
    else match Literal(ft, lit)
      case Err(e) => Err(e)
      case Ok(v) =>
        match live
        case Err(e) => Err(e)
        case Ok(x) => Ok(x == v)
  }

  function Evaluate(m: MemberRef, c: Value, t: TypeDecl, admitStrings: bool): (r: Result<bool, Error>)
    ensures m.FieldRef? && FindField(t.fields, m.name).None? ==> r == Err(FieldNotFound(m.name))
    ensures m.PropRef? && FindProp(t.props, m.name).None? ==> r == Err(PropertyNotFound(m.name))
    ensures r.Err? ==> !r.error.MalformedExpression?
  {
    match m
    case FieldRef(n, lit) =>
      (match FindField(t.fields, n)
       case None => Err(FieldNotFound(n))
       case Some(k) => Compare(n, t.fields[k].ftype, lit, GetField(c, k), admitStrings))
    case PropRef(n, lit) =>
      match FindProp(t.props, n)
      case None => Err(PropertyNotFound(n))
      case Some(k) => Compare(n, t.props[k].ptype, lit, GetProperty(c, k), admitStrings)
  }

  /** The predicate of an expression over a container; `admitStrings` selects the member types accepted. */
  function DependsOnWith(expr: string, c: Value, t: TypeDecl, admitStrings: bool): (r: Result<bool, Error>)
    ensures r == Err(MalformedExpression(expr)) <==> Occurrences(expr, '|') != 1
  {
    match ParseExpr(expr)
    case Err(e) => Err(e)
    case Ok(m) => Evaluate(m, c, t, admitStrings)
  }

  /**
   * `DependsOn` as the source writes it: a string member is rejected like any
   * other non-primitive.  Wherever it does not raise it agrees with the
   * corrected `DependsOn`, and the two differ only where this one raises
   * "not supported".
   */
  function DependsOnAsWritten(expr: string, c: Value, t: TypeDecl): (r: Result<bool, Error>)
    ensures r == Err(MalformedExpression(expr)) <==> Occurrences(expr, '|') != 1
    ensures r.Ok? ==> r == DependsOn(expr, c, t)
    ensures r != DependsOn(expr, c, t) ==> r.Err? && r.error.UnsupportedMemberType?
  {
    DependsOnWith(expr, c, t, false)
  }

  /** `DependsOn` with string members admitted and compared with the literal text. */
  function DependsOn(expr: string, c: Value, t: TypeDecl): (r: Result<bool, Error>)
    ensures r == Err(MalformedExpression(expr)) <==> Occurrences(expr, '|') != 1
  {
    DependsOnWith(expr, c, t, true)
  }

  /**
   * On a container of the type, `Name|Value` for a comparable field holds exactly
   * when the field currently equals the converted literal.
   */
  lemma FieldPredicate(n: string, lit: string, c: Value, t: TypeDecl, k: nat)
    requires Instance(c, t) && Writable(FieldRef(n, lit))
    requires FindField(t.fields, n) == Some(k) && Comparable(t.fields[k].ftype, true)
    requires Literal(t.fields[k].ftype, lit).Ok?
    ensures DependsOn(n + "|" + lit, c, t) == Ok(c.fields[k] == Literal(t.fields[k].ftype, lit).value)
  {
    ParseRenderExpr(FieldRef(n, lit));
  }

  /** `#Name|Value` does the same for a property. */
  lemma PropertyPredicate(n: string, lit: string, c: Value, t: TypeDecl, k: nat)
    requires Instance(c, t) && Writable(PropRef(n, lit))
    requires FindProp(t.props, n) == Some(k) && Comparable(t.props[k].ptype, true)
    requires Literal(t.props[k].ptype, lit).Ok?
    ensures DependsOn("#" + n + "|" + lit, c, t) == Ok(c.props[k] == Literal(t.props[k].ptype, lit).value)
  {
    ParseRenderExpr(PropRef(n, lit));
  }

  /** A well-formed reference to a member that does not exist is an error naming it. */
  lemma MissingMember(m: MemberRef, c: Value, t: TypeDecl)
    requires Writable(m)
    requires m.FieldRef? ==> FindField(t.fields, m.name).None?
    requires m.PropRef? ==> FindProp(t.props, m.name).None?
    ensures DependsOn(RenderExpr(m), c, t) == Err(if m.FieldRef? then FieldNotFound(m.name) else PropertyNotFound(m.name))
  {
    ParseRenderExpr(m);
  }

  /**
   * As written, `Name|Value` on a primitive or enum field holds exactly when the
   * field currently equals the converted literal, as in the corrected version.
   */
  lemma FieldPredicateAsWritten(n: string, lit: string, c: Value, t: TypeDecl, k: nat)
    requires Instance(c, t) && Writable(FieldRef(n, lit))
    requires FindField(t.fields, n) == Some(k) && Comparable(t.fields[k].ftype, false)
    requires Literal(t.fields[k].ftype, lit).Ok?
    ensures DependsOnAsWritten(n + "|" + lit, c, t) == Ok(c.fields[k] == Literal(t.fields[k].ftype, lit).value)
  {
    ParseRenderExpr(FieldRef(n, lit));
  }

  /** As written, naming a string field always raises, whatever the literal. */
  lemma StringFieldRejected(n: string, lit: string, c: Value, t: TypeDecl, k: nat)
    requires Writable(FieldRef(n, lit))
    requires FindField(t.fields, n) == Some(k) && t.fields[k].ftype == Str
    ensures DependsOnAsWritten(n + "|" + lit, c, t) == Err(UnsupportedMemberType(n))
  {
    ParseRenderExpr(FieldRef(n, lit));
  }

  /** With strings admitted, naming a string field compares it with the literal text. */
  lemma StringFieldCompared(n: string, lit: string, c: Value, t: TypeDecl, k: nat)
    requires Instance(c, t) && Writable(FieldRef(n, lit))
    requires FindField(t.fields, n) == Some(k) && t.fields[k].ftype == Str
    ensures DependsOn(n + "|" + lit, c, t) == Ok(c.fields[k] == VStr(lit))
  {
    FieldPredicate(n, lit, c, t, k);
  }

  /**
   * Whether a field enters the form, and with which attribute: `Ok(None)` skips
   * it, `Ok(Some(a))` draws it with `a`, and an error is raised by the gate.
   */
  function Admit(f: FieldDecl, c: Value, t: TypeDecl, mask: bv32): (r: Result<Option<DrawAttr>, Error>)
    ensures f.draw.Some? && f.draw.value.kind == Ignore ==> r == Ok(None)
    ensures f.draw.Some? && f.draw.value.kind != Ignore && f.draw.value.visibleOn != "" ==>
      var p := DependsOn(f.draw.value.visibleOn, c, t);
      (r == Ok(None) <==> p == Ok(false)) && (r == Ok(Some(f.draw.value)) <==> p == Ok(true)) && (r.Err? <==> p.Err?)
    ensures f.draw.Some? && f.draw.value.kind != Ignore && f.draw.value.visibleOn == "" && f.draw.value.invisibleOn != "" ==>
      var p := DependsOn(f.draw.value.invisibleOn, c, t);
      (r == Ok(None) <==> p == Ok(true)) && (r == Ok(Some(f.draw.value)) <==> p == Ok(false)) && (r.Err? <==> p.Err?)
    ensures f.draw.Some? && f.draw.value.kind != Ignore && f.draw.value.visibleOn == "" && f.draw.value.invisibleOn == "" ==>
      r == Ok(Some(f.draw.value))
    ensures f.draw.None? ==> (r == Ok(None) <==> !Eligible(mask, f)) && (Eligible(mask, f) ==> r == Ok(Some(Promote(f))))
  {
    match f.draw
    case Some(a) =>
      if a.kind == Ignore then Ok(None)
      else if a.visibleOn != "" then
        (match DependsOn(a.visibleOn, c, t)
         case Err(e) => Err(e)
         case Ok(b) => if b then Ok(Some(a)) else Ok(None))
      else if a.invisibleOn != "" then
        (match DependsOn(a.invisibleOn, c, t)
         case Err(e) => Err(e)
         case Ok(b) => if b then Ok(None) else Ok(Some(a)))
      else Ok(Some(a))
    case None =>
      if Eligible(mask, f) then Ok(Some(Promote(f))) else Ok(None)
  }

  /** The gate never touches the container: only `Promote` and `Draw` attributes come out of it. */
  lemma AdmittedAttribute(f: FieldDecl, c: Value, t: TypeDecl, mask: bv32)
    requires Admit(f, c, t, mask).Ok? && Admit(f, c, t, mask).value.Some?
    ensures Admit(f, c, t, mask).value.value.kind != Ignore
    ensures f.draw.Some? ==> Admit(f, c, t, mask).value.value == f.draw.value
    ensures f.draw.None? ==> Admit(f, c, t, mask).value.value == Promote(f) && Eligible(mask, f)
  {
  }

  /** With OnlyDrawAttr in force, only fields carrying a `Draw` attribute can enter the form. */
  lemma OnlyDrawAttrGate(f: FieldDecl, c: Value, t: TypeDecl, mask: bv32)
    requires Has(mask, OnlyDrawAttr)
    ensures f.draw.None? ==> Admit(f, c, t, mask) == Ok(None)
  {
  }
}
