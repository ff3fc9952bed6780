/**
 * The schema that replaces runtime reflection: a container type is an ordered
 * list of field descriptors (with their `Draw`, `Range`, `DrawFields` and
 * serialization attributes) and a list of properties; field types form a closed
 * variant over the types the form engine distinguishes.  Values are the
 * runtime contents of fields, and `HasType` says when a value fits a type.
 */
module Schema {
  import opened Wrappers

  datatype Width = W8 | W16 | W32 | W64

  /** The primitive types: bool, the eight integral types, float, double and char. */
  datatype PrimKind = Bool | Integral(signed: bool, width: Width) | Float | Double | Char

  datatype EnumMember = EnumMember(name: string, value: int)

  /**
   * An enum type: whether it carries `[Flags]`, its underlying integral type
   * (signedness and width; `int` unless declared otherwise), and its members in
   * the order `Enum.GetNames` lists them.
   */
  datatype EnumDecl = EnumDecl(name: string, flags: bool, signed: bool, width: Width, members: seq<EnumMember>)

  datatype FieldType =
    | Prim(kind: PrimKind)
    | Str
    | Arr(elem: FieldType)
    | Vector2 | Vector3 | Vector4 | Color | Vector2i | Vector3i
    | Enum(enumDecl: EnumDecl)
    | KeyBindingType
      /** A delegate type; `args` are the names of its generic arguments, empty for a plain `Action`. */
    | Delegate(args: seq<string>)
      /** Any other class or struct: drawn as a nested group of its own fields. */
    | Nested(decl: TypeDecl)

  const Int32: FieldType := Prim(Integral(true, W32))
  const Int64: FieldType := Prim(Integral(true, W64))
  const Single: FieldType := Prim(Float)
  const Real64: FieldType := Prim(Double)
  const Boolean: FieldType := Prim(Bool)

  /** The widget kinds of a `Draw` attribute (`DrawType`, UIDraw.cs lines 13-63). */
  datatype DrawType =
    | Auto | Ignore | Field | Slider | Toggle | ToggleGroup | ToggleMulti
    | PopupToggleMulti | PopupList | KeyBinding | KeyBindingNoMod | CustomGUI

  /** `double.MaxValue`, exactly. */
  const DoubleMaxValue: real := 179769313486231570814527423731704356798070567525844996598917476803157260780028538760589558632766878171540458953514382464234321326889464182768467546703537516986049910576551282076245490090389328944075868508455133942304583236903222948165808559332123348274797826204144723168738177180919299881250404026184124858368.0

  /**
   * The decision-relevant part of a `Draw` attribute: widget kind, numeric bounds,
   * the two visibility expressions and the collapsible flag.
   */
  datatype DrawAttr = DrawAttr(
    kind: DrawType,
    min: real,
    max: real,
    visibleOn: string,
    invisibleOn: string,
    collapsible: bool)

  /** A `Draw` attribute with every option at its default. */
  const DefaultAttr: DrawAttr := DrawAttr(Auto, -DoubleMaxValue, DoubleMaxValue, "", "", false)

  /** Unity's `[Range(min, max)]`. */
  datatype Range = Range(min: real, max: real)

  /**
   * One field as reflection sees it: name, declared type, accessibility, the
   * `[SerializeField]` and `[NonSerialized]` markers, its attributes, and its
   * metadata token (the identity used by the collapsible state).
   */
  datatype FieldDecl = FieldDecl(
    name: string,
    ftype: FieldType,
    isPublic: bool,
    serializeField: bool,
    notSerialized: bool,
    draw: Option<DrawAttr>,
    range: Option<Range>,
    drawFields: Option<bv32>,
    token: int)

  datatype PropDecl = PropDecl(name: string, ptype: FieldType)

  /**
   * A container type: its name, whether it is a struct, its own `DrawFields` mask,
   * whether it derives from `UnityEngine.Object`, its instance fields in
   * declaration order and its properties.
   */
  datatype TypeDecl = TypeDecl(
    name: string,
    valueType: bool,
    drawFields: Option<bv32>,
    unityObject: bool,
    fields: seq<FieldDecl>,
    props: seq<PropDecl>)

  /** Key codes, with the six modifier keys named and every other key by number. */
  datatype KeyCode = NoKey | LeftControl | RightControl | LeftShift | RightShift | LeftAlt | RightAlt | Key(code: nat)

  /** A key binding's value: the key and the Ctrl=1, Shift=2, Alt=4 modifier mask. */
  datatype Chord = Chord(keyCode: KeyCode, modifiers: bv8)

  /** The runtime value held by a field or property. */
  datatype Value =
    | VNull
    | VBool(b: bool)
    | VInt(i: int)
    | VReal(r: real)
    | VChar(ch: char)
    | VStr(s: string)
    | VEnum(e: int)
    | VVec(comps: seq<real>)
    | VVeci(icomps: seq<int>)
    | VKey(chord: Chord)
    | VDelegate
    | VArr(elems: seq<Value>)
    | VObj(fields: seq<Value>, props: seq<Value>)

  /** The exceptions a render pass can raise. */
  datatype Error =
    | MalformedExpression(expr: string)
    | FieldNotFound(name: string)
    | PropertyNotFound(name: string)
    | UnsupportedMemberType(name: string)
    | LiteralNotParsed(literal: string)
    | WrongWidget(kind: DrawType)
    | DelegateArity
    | NullReference
    | InvalidCast
    | FormatError
    | Overflow
    | IndexOutOfRange
    | ArgumentNull(param: string)
    | ArgumentOutOfRange(param: string)

  function IntegralMin(signed: bool, w: Width): int {
    if !signed then 0
    else match w
      case W8 => -0x80
      case W16 => -0x8000
      case W32 => -0x8000_0000
      case W64 => -0x8000_0000_0000_0000
  }

  function IntegralMax(signed: bool, w: Width): int {
    match w
    case W8 => if signed then 0x7F else 0xFF
    case W16 => if signed then 0x7FFF else 0xFFFF
    case W32 => if signed then 0x7FFF_FFFF else 0xFFFF_FFFF
    case W64 => if signed then 0x7FFF_FFFF_FFFF_FFFF else 0xFFFF_FFFF_FFFF_FFFF
  }

  predicate InIntegralRange(i: int, signed: bool, w: Width) {
    IntegralMin(signed, w) <= i <= IntegralMax(signed, w)
  }

  /** The number of float components of a vector-like struct, 0 for other types. */
  function FloatComponents(ft: FieldType): nat {
    match ft
    case Vector2 => 2
    case Vector3 => 3
    case Vector4 => 4
    case Color => 4
    case _ => 0
  }

  /** The number of int components of `Vector2i`/`Vector3i`, 0 for other types. */
  function IntComponents(ft: FieldType): nat {
    match ft
    case Vector2i => 2
    case Vector3i => 3
    case _ => 0
  }

  /** A value fits a type: the shape the CLR would guarantee for a field of that type. */
  predicate HasType(v: Value, ft: FieldType)
    decreases ft
  {
    match ft
    case Prim(k) =>
      (match k
       case Bool => v.VBool?
       case Integral(s, w) => v.VInt? && InIntegralRange(v.i, s, w)
       case Float => v.VReal?
       case Double => v.VReal?
       case Char => v.VChar?)
    case Str => v.VNull? || v.VStr?
    case Arr(e) => v.VNull? || (v.VArr? && forall j :: 0 <= j < |v.elems| ==> HasType(v.elems[j], e))
    case Vector2 => v.VVec? && |v.comps| == 2
    case Vector3 => v.VVec? && |v.comps| == 3
    case Vector4 => v.VVec? && |v.comps| == 4
    case Color => v.VVec? && |v.comps| == 4
    case Vector2i => v.VVeci? && |v.icomps| == 2 && forall j :: 0 <= j < 2 ==> InIntegralRange(v.icomps[j], true, W32)
    case Vector3i => v.VVeci? && |v.icomps| == 3 && forall j :: 0 <= j < 3 ==> InIntegralRange(v.icomps[j], true, W32)
    case Enum(_) => v.VEnum?
    case KeyBindingType => v.VNull? || v.VKey?
    case Delegate(_) => v.VNull? || v.VDelegate?
    case Nested(d) =>
      v.VNull? ||
      (v.VObj? && |v.fields| == |d.fields| && |v.props| == |d.props| &&
       (forall j :: 0 <= j < |d.fields| ==> HasType(v.fields[j], d.fields[j].ftype)) &&
       (forall j :: 0 <= j < |d.props| ==> HasType(v.props[j], d.props[j].ptype)))
  }

  /** A container instance of a type: an object with one well-typed value per field and property. */
  predicate Instance(c: Value, t: TypeDecl) {
    c.VObj? && |c.fields| == |t.fields| && |c.props| == |t.props| &&
    (forall j :: 0 <= j < |t.fields| ==> HasType(c.fields[j], t.fields[j].ftype)) &&
    (forall j :: 0 <= j < |t.props| ==> HasType(c.props[j], t.props[j].ptype))
  }

  /** `FieldInfo.GetValue`: fails on a null target, like the reflection call. */
  function GetField(c: Value, k: nat): (r: Result<Value, Error>)
    ensures r.Ok? <==> c.VObj? && k < |c.fields|
    ensures r.Ok? ==> r.value == c.fields[k]
  {
    if c.VObj? && k < |c.fields| then Ok(c.fields[k])
    else if c.VNull? then Err(NullReference)
    else Err(InvalidCast)
  }

  function GetProperty(c: Value, k: nat): (r: Result<Value, Error>)
    ensures r.Ok? <==> c.VObj? && k < |c.props|
    ensures r.Ok? ==> r.value == c.props[k]
  {
    if c.VObj? && k < |c.props| then Ok(c.props[k])
    else if c.VNull? then Err(NullReference)
    else Err(InvalidCast)
  }

  /** `FieldInfo.SetValue`: replaces field `k` and nothing else. */
  function SetField(c: Value, k: nat, v: Value): (r: Value)
    requires c.VObj? && k < |c.fields|
    ensures r.VObj? && |r.fields| == |c.fields| && r.props == c.props
    ensures r.fields[k] == v
    ensures forall j :: 0 <= j < |c.fields| && j != k ==> r.fields[j] == c.fields[j]
  {
    c.(fields := c.fields[k := v])
  }
}
