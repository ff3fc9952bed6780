/**
 * Widget classification: which field types become nested groups, the type lists
 * the form engine consults, auto-detection of a widget kind from the field type,
 * and the configuration error a forced kind raises on an incompatible type.
 */
module Widgets {
  import opened Wrappers
  import opened Schema

  /** `Type.IsClass`, `IsValueType`, `IsPrimitive`, `IsEnum`, `IsArray` and delegate-ness. */
  predicate IsClass(ft: FieldType) {
    ft.Str? || ft.Arr? || ft.KeyBindingType? || ft.Delegate? || (ft.Nested? && !ft.decl.valueType)
  }

  predicate IsValueType(ft: FieldType) {
    ft.Prim? || ft.Enum? || FloatComponents(ft) > 0 || IntComponents(ft) > 0 || (ft.Nested? && ft.decl.valueType)
  }

  /** The eight special types that are drawn as leaves although they are not primitive. */
  predicate IsSpecial(ft: FieldType) {
    FloatComponents(ft) > 0 || IntComponents(ft) > 0 || ft.KeyBindingType? || ft.Str?
  }

  /** The test that sends a field to a nested group instead of a leaf widget. */
  predicate IsNestedType(ft: FieldType) {
    ((IsClass(ft) && !ft.Arr? && !ft.Delegate?) || (IsValueType(ft) && !ft.Prim? && !ft.Enum?)) && !IsSpecial(ft)
  }

  /** Exactly the user-defined classes and structs are drawn as nested groups. */
  lemma NestedTypes(ft: FieldType)
    ensures IsNestedType(ft) <==> ft.Nested?
  {
  }

  /** The types a `Field` widget is drawn for by auto-detection (`fieldTypes`). */
  predicate InFieldTypes(ft: FieldType) {
    ft in {Int32, Int64, Single, Real64, Arr(Int32), Arr(Int64), Arr(Single), Arr(Real64),
           Vector2, Vector3, Vector4, Color, Str, Arr(Str), Vector2i, Vector3i}
  }

  /** The types a `Slider` accepts (`sliderTypes`). */
  predicate InSliderTypes(ft: FieldType) {
    ft in {Int32, Int64, Single, Real64}
  }

  /** A delegate whose single generic argument is the container type. */
  predicate CustomGuiDelegate(ft: FieldType, container: string) {
    ft.Delegate? && |ft.args| == 1 && ft.args[0] == container
  }

  /**
   * The widget chosen for a field whose attribute says `Auto`; `Auto` again
   * means that the field gets no widget.
   */
  function AutoDetect(ft: FieldType, container: string): (k: DrawType)
    ensures InFieldTypes(ft) ==> k == Field
    ensures ft == Boolean ==> k == Toggle
    ensures ft.Enum? ==> k == (if ft.enumDecl.flags then PopupToggleMulti else PopupList)
    ensures ft.KeyBindingType? ==> k == KeyBinding
    ensures k == CustomGUI <==> CustomGuiDelegate(ft, container)
    ensures k == Auto <==> !InFieldTypes(ft) && ft != Boolean && !ft.Enum? && !ft.KeyBindingType? && !CustomGuiDelegate(ft, container)
    ensures k in {Auto, Field, Toggle, PopupList, PopupToggleMulti, KeyBinding, CustomGUI}
  {
    if InFieldTypes(ft) then Field
    else if ft == Boolean then Toggle
    else if ft.Enum? then (if ft.enumDecl.flags then PopupToggleMulti else PopupList)
    else if ft.KeyBindingType? then KeyBinding
    else if CustomGuiDelegate(ft, container) then CustomGUI
    else Auto
  }

  /**
   * The configuration error a widget kind raises on a field type, or `None` when
   * the kind can draw that type (`Auto` and `Ignore` never raise).
   */
  function CheckWidget(k: DrawType, ft: FieldType, container: string): (e: Option<Error>)
    ensures k == Field ==> (e.None? <==> InFieldTypes(ft) || ft.Arr?)
    ensures k == Slider ==> (e.None? <==> InSliderTypes(ft))
    ensures k == Toggle ==> (e.None? <==> ft == Boolean)
    ensures k in {ToggleGroup, ToggleMulti, PopupToggleMulti, PopupList} ==> (e.None? <==> ft.Enum?)
    ensures k in {KeyBinding, KeyBindingNoMod} ==> (e.None? <==> ft.KeyBindingType?)
    ensures k == CustomGUI ==> (e.None? <==> ft.Delegate? && (ft.args == [] || CustomGuiDelegate(ft, container)))
    ensures k in {Auto, Ignore} ==> e.None?
    ensures e.Some? ==> e.value == (if k == CustomGUI && ft.Delegate? then DelegateArity
                                    else WrongWidget(if k == KeyBindingNoMod then KeyBinding else k))
  {
    match k
    case Auto => None
    case Ignore => None
    case Field => if !InFieldTypes(ft) && !ft.Arr? then Some(WrongWidget(Field)) else None
    case Slider => if !InSliderTypes(ft) then Some(WrongWidget(Slider)) else None
    case Toggle => if ft != Boolean then Some(WrongWidget(Toggle)) else None
    case ToggleGroup => if !ft.Enum? then Some(WrongWidget(ToggleGroup)) else None
    case ToggleMulti => if !ft.Enum? then Some(WrongWidget(ToggleMulti)) else None
    case PopupToggleMulti => if !ft.Enum? then Some(WrongWidget(PopupToggleMulti)) else None
    case PopupList => if !ft.Enum? then Some(WrongWidget(PopupList)) else None
    case KeyBinding => if !ft.KeyBindingType? then Some(WrongWidget(KeyBinding)) else None
    case KeyBindingNoMod => if !ft.KeyBindingType? then Some(WrongWidget(KeyBinding)) else None
    case CustomGUI =>
      if !ft.Delegate? then Some(WrongWidget(CustomGUI))
      else if |ft.args| > 0 && (ft.args[0] != container || |ft.args| > 1) then Some(DelegateArity)
      else None
  }

  /** Whatever auto-detection picks, the picked widget accepts the field type. */
  lemma AutoDetectAccepted(ft: FieldType, container: string)
    ensures CheckWidget(AutoDetect(ft, container), ft, container).None?
  {
  }

  /** Every type auto-detection draws as a `Field` or `Slider` is one a `Field` widget accepts. */
  lemma SliderTypesAreFieldTypes(ft: FieldType)
    ensures InSliderTypes(ft) ==> InFieldTypes(ft) && CheckWidget(Field, ft, "").None?
  {
  }

  /** The widget a leaf is drawn with: the attribute's kind, or the auto-detected one for `Auto`. */
  function ResolveKind(a: DrawAttr, ft: FieldType, container: string): (k: DrawType)
    ensures a.kind != Auto ==> k == a.kind
    ensures a.kind == Auto ==> k == AutoDetect(ft, container)
  {
    if a.kind == Auto then AutoDetect(ft, container) else a.kind
  }
}
