# UnityModManager settings form — a Dafny model of its decision and commit logic

`UnityModManager.UI.DrawFields` draws a settings form for an arbitrary mod
settings object. It walks the fields of the object's type. For each field it
decides whether the field takes part in the form, which widget draws it, and
how the user's edit is turned back into a value of the field's type. A nested
class or struct is drawn as a group of its own fields. Collapsible groups
remember in a process-wide list whether they are shown. When anything changed,
the caller's `onChange` callback runs, and an exception it throws is logged.

This project models that logic in Dafny 4.11, module by module:

- `Schema` (schema.dfy): reflection is replaced by an explicit schema. A type
  is an ordered list of field descriptors (type, accessibility,
  `[SerializeField]`/`[NonSerialized]`, `Draw`, `Range`, `DrawFields`,
  metadata token) plus a list of properties. Field types form a closed variant.
  Runtime values are a `Value` datatype with a `HasType` predicate.
- `Eligibility` (eligibility.dfy): the `DrawFieldMask` test for fields without
  a `Draw` attribute, the `DrawFields` overrides, and `Range` promotion.
- `Text` (text.dfy): the invariant-culture subset of .NET parsing and
  formatting the form relies on (`int.TryParse`, `double.TryParse` in plain
  decimal notation, `bool.Parse`, `int.ToString()`, `Split`, `TrimStart`).
- `Visibility` (visibility.dfy): `DependsOn` (`Name|Value` and
  `#Property|Value`), and the gate that decides whether a field enters the
  form (`Ignore`, `VisibleOn`, `InvisibleOn`, mask).
- `Widgets` (widgets.dfy): the nested-group test, widget auto-detection, and
  the configuration error a forced widget kind raises on an incompatible type.
- `MultiField` (multifield.dfy): `DrawFloatMultiField` and `DrawIntMultiField`.
  Each is a loop proved against a specification function.
- `Commit` (commit.dfy): what each leaf widget commits. This covers text entries
  with clamping and the "0" fallback, array "+"/"-", vectors, the slider,
  toggle, enum choice and flags selectors.
- `FieldWidget` (fieldwidget.dfy): the `Field` widget on numbers, strings and
  arrays as the program runs it. The values sit in an `object[]` array that is
  resized and edited in place.
- `Collapsible` (collapsible.dfy): the `collapsibleStates` list as a class
  whose Hide/Show toggle is proved to flip one token and keep the list free
  of duplicates.
- `KeyCapture` (keybinding.dfy): the modifier toggles of `DrawKeybinding`,
  and the `DrawKeybindingSmart` capture window as a class over `KeyBinding`
  objects. Its pure `Step`/`Run` specification carries the state-machine lemmas.
- `Header` (header.dfy): `DrawHeaderAttribute.Draw`'s rich-text wrapping,
  proved to nest its tags properly.
- `Form` (form.dfy): the render pass `Draw` and `DrawFields`. A pure
  specification (`DrawSpec`, `FieldsFrom`, `StepField`) is matched by the
  imperative loop, which changes the collapsible state in place. Lemmas
  cover the whole pass.

User input is a parameter: a map from the path of field indices to what the
user did to that field's widgets in this pass (text typed, buttons pressed,
slider position, toggle state, picked index or flags). Floating-point numbers
are `real`. Integers are unbounded, with the CLR ranges checked explicitly
where the source converts or parses.

## Model

| member | source | states |
|---|---|---|
| Eligibility.EligibleConditions | UnityModManager/UIDraw.cs:1222-1225 | a field without `Draw` is admitted iff OnlyDrawAttr is clear, SkipNotSerialized is clear or the field is serialized, and (Public set and field public, or Serialized set and field has SerializeField, or neither bit set) |
| Eligibility.Eligible | UnityModManager/UIDraw.cs:1222-1225 | mask by mask: OnlyDrawAttr excludes every field, SkipNotSerialized excludes `[NonSerialized]` fields, Any admits every field, Public exactly the public ones, Serialized exactly those with `[SerializeField]`, Public together with Serialized exactly the fields that are either |
| Eligibility.EligibleIgnoresOtherBits | UnityModManager/UIDraw.cs:1222-1225 | only the four defined mask bits influence eligibility |
| Eligibility.SkipNotSerializedNarrows | UnityModManager/UIDraw.cs:1222-1225 | adding SkipNotSerialized never admits more fields, and changes nothing for serialized fields |
| Eligibility.PublicSerializedUnion | UnityModManager/UIDraw.cs:1222-1225 | the mask with both Public and Serialized set admits exactly the union of what Public and Serialized admit |
| Eligibility.EffectiveMask | UnityModManager/UIDraw.cs:1183-1187 | a type's own `DrawFields` mask overrides the mask handed down, otherwise the handed-down mask is used |
| Eligibility.ChildMask | UnityModManager/UIDraw.cs:1272-1276 | a nested group receives the field's `DrawFields` mask if it has one, otherwise the current mask |
| Eligibility.NestedMaskPrecedence | UnityModManager/UIDraw.cs:1183-1187 | inside a nested group the nested type's attribute wins over the field's, which wins over the enclosing mask |
| Eligibility.Promote | UnityModManager/UIDraw.cs:1226-1234 | an admitted field with `[Range(min,max)]` becomes a Slider over exactly those bounds; otherwise it keeps the default attribute |
| Text.ParseIntegerOfIntToString | UnityModManager/UIDraw.cs:946-953 | an integer printed by `ToString()` parses back to itself, so an untouched int text field reads back unchanged |
| Text.IntToString | UnityModManager/UIDraw.cs:935 | `int.ToString()` is a minus sign followed by digits for a negative number and digits alone otherwise; `ParseIntegerOfIntToString` is its inverse |
| Text.ParseInteger | UnityModManager/UIDraw.cs:943 | `int.TryParse` without the range check: trimmed text of digits is their value, a negative result has a leading minus, and text with a decimal point is rejected |
| Text.ParseInt32 | UnityModManager/UIDraw.cs:943-951 | `int.TryParse`: accepts exactly the integer texts whose value lies in the 32-bit range, with the same value |
| Text.ParseDecimal | UnityModManager/UIDraw.cs:1689 | `double.TryParse` in plain notation: trimmed text of digits is their value, a negative result has a leading minus, blank text is rejected |
| Text.ParseDecimalFraction | UnityModManager/UIDraw.cs:1689 | text with a decimal point, an optional sign and at least one digit denotes the integral digits plus the fractional digits over ten to their count, negated after a minus |
| Text.ParseDecimalExtendsParseInteger | UnityModManager/UIDraw.cs:1687-1689 | every text `int.TryParse` accepts is accepted by `double.TryParse` with the same value |
| Text.SplitShape | UnityModManager/UIDraw.cs:1016 | splitting on the bar character yields one more piece than there are separators, none containing one |
| Text.SplitJoin | UnityModManager/UIDraw.cs:1016 | joining the pieces of `Split` with the separator restores the text |
| Text.ParseBool | UnityModManager/UIDraw.cs:1059 | `Convert.ChangeType(text, bool)` accepts exactly "True"/"False" in any letter case, ignoring surrounding `Char.IsWhiteSpace` characters and '\0' |
| Visibility.ParseExpr | UnityModManager/UIDraw.cs:1016-1077 | an expression not containing exactly one bar character is malformed; a leading '#' selects a property whose name loses all leading '#', otherwise a field is named |
| Visibility.ParseRenderExpr | UnityModManager/UIDraw.cs:1016-1077 | writing a field or property reference as `Name`, bar, `Value` (with a leading '#' for a property) and parsing it gives the reference back |
| Visibility.RenderParseField | UnityModManager/UIDraw.cs:1016-1025 | a parsed field reference re-renders to exactly the original expression |
| Visibility.EnumParseCases | UnityModManager/UIDraw.cs:1039 | `Enum.Parse` trims the text; a number is accepted exactly when the enum's underlying type holds it (a byte enum rejects 300); other text is accepted exactly when it names a member, giving its value; blank text is rejected |
| Visibility.EnumParseNumber | UnityModManager/UIDraw.cs:1039 | a printed integer parses as an enum value exactly when it lies in the range of the enum's underlying type |
| Visibility.LiteralRejected | UnityModManager/UIDraw.cs:1037-1069 | a literal that does not convert to the member's type is an error naming the literal |
| Visibility.LiteralIntegral | UnityModManager/UIDraw.cs:1059 | an integral member accepts exactly the integers of its CLR range |
| Visibility.Compare | UnityModManager/UIDraw.cs:1030-1073 | a member type that is not primitive/enum (or string, when admitted) is an error; a success is exactly the equality of the live value with the converted literal |
| Visibility.Evaluate | UnityModManager/UIDraw.cs:1025-1081 | a missing field or property is an error naming it |
| Visibility.DependsOn | UnityModManager/UIDraw.cs:1014-1128 | corrected version (first Findings row), string members admitted: the malformed-expression error occurs exactly when the expression does not have exactly one bar character; `FieldPredicate`, `PropertyPredicate` and `MissingMember` give the rest |
| Visibility.DependsOnAsWritten | UnityModManager/UIDraw.cs:1014-1128 | the source's version: the same malformed-expression condition; wherever it does not raise it gives the corrected `DependsOn`'s answer, and the two differ only where it raises "not supported" |
| Visibility.FieldPredicateAsWritten | UnityModManager/UIDraw.cs:1022-1073 | as written, on a primitive or enum field the expression `Name`, bar, `Value` holds iff the field equals the converted literal |
| Visibility.FieldPredicate | UnityModManager/UIDraw.cs:1022-1073 | on an instance, the expression `Name`, bar, `Value` for a comparable field holds iff the field equals the converted literal |
| Visibility.PropertyPredicate | UnityModManager/UIDraw.cs:1075-1126 | the expression `#Name`, bar, `Value` holds iff the property equals the converted literal |
| Visibility.MissingMember | UnityModManager/UIDraw.cs:1026-1082 | a well-formed reference to a member that does not exist raises FieldNotFound / PropertyNotFound |
| Visibility.StringFieldRejected | UnityModManager/UIDraw.cs:1030-1033 | as written, naming a string field always raises UnsupportedMemberType |
| Visibility.StringFieldCompared | UnityModManager/UIDraw.cs:1051-1054 | with strings admitted, a string field is compared with the literal text |
| Visibility.Admit | UnityModManager/UIDraw.cs:1189-1237 | Ignore is always skipped; with VisibleOn the field is skipped iff the predicate is false; InvisibleOn is consulted only when VisibleOn is empty and skips iff true; errors propagate; a field without `Draw` is skipped iff not eligible. The predicate is the corrected `DependsOn` (see Left out) |
| Visibility.AdmittedAttribute | UnityModManager/UIDraw.cs:1189-1237 | an admitted field is drawn with its own `Draw` attribute, or with the promoted default when it has none; never with Ignore |
| Visibility.OnlyDrawAttrGate | UnityModManager/UIDraw.cs:1222 | under OnlyDrawAttr a field without `Draw` never enters the form |
| Widgets.NestedTypes | UnityModManager/UIDraw.cs:1270 | the nested-group test on CLR type traits selects exactly the user-defined classes and structs |
| Widgets.AutoDetect | UnityModManager/UIDraw.cs:1354-1379 | fieldTypes → Field, bool → Toggle, non-Flags enum → PopupList, Flags enum → PopupToggleMulti, KeyBinding → KeyBinding, `Action<Container>` → CustomGUI, any other type → no widget |
| Widgets.CheckWidget | UnityModManager/UIDraw.cs:1386-1988 | each forced kind raises exactly on the types it cannot draw (Field: not fieldTypes and not array; Slider: not sliderTypes; Toggle: not bool; enum widgets: not enum; KeyBinding(NoMod): not KeyBinding; CustomGUI: not a delegate, or wrong generic argument) |
| Widgets.AutoDetectAccepted | UnityModManager/UIDraw.cs:1354-1390 | the auto-detected kind never raises a configuration error on its own type |
| Widgets.ResolveKind | UnityModManager/UIDraw.cs:1352-1379 | an explicit kind is used verbatim; Auto is replaced by the detected kind |
| MultiField.CheckArgs | UnityModManager/UIDraw.cs:825-830 | empty values, empty labels or differing lengths raise, with the source's exception and argument name |
| MultiField.ReadBack | UnityModManager/UIDraw.cs:832-861 | the shared read-back: the argument errors of `CheckArgs`; otherwise one value per component, each its entry's reading, and the flag set iff some component differs |
| MultiField.IntMultiField | UnityModManager/UIDraw.cs:919-960 | same length as input; each component is its text parsed as int, 0 when empty or unparsable; the flag is true iff some component differs |
| MultiField.FloatMultiField | UnityModManager/UIDraw.cs:823-864 | same length; each component kept or parsed, 0 when empty or unparsable; flag iff some component differs |
| MultiField.DrawMultiField | UnityModManager/UIDraw.cs:832-861 | the fill loop computes exactly the specified result array and change flag |
| MultiField.DrawIntMultiField | UnityModManager/UIDraw.cs:919-960 | the method returns what `IntMultiField` specifies |
| MultiField.DrawFloatMultiField | UnityModManager/UIDraw.cs:823-864 | the method returns what `FloatMultiField` specifies |
| MultiField.IntEntryValue | UnityModManager/UIDraw.cs:939-953 | an int entry is in the 32-bit range: the parsed value when it parses, else 0 |
| MultiField.FloatEntryValue | UnityModManager/UIDraw.cs:843-857 | a float entry is the old value when kept, the parsed number when it parses, else 0 |
| MultiField.IntMultiFieldKept | UnityModManager/UIDraw.cs:938-958 | untouched int fields read back their own printed values and report no change |
| MultiField.FloatMultiFieldKept | UnityModManager/UIDraw.cs:842-862 | untouched float fields report no change |
| MultiField.IntMultiFieldSingleEdit | UnityModManager/UIDraw.cs:938-958 | editing one int component changes only that component, and the flag says whether its value differs |
| Commit.Clamp | UnityModManager/UIDraw.cs:1691-1692 | `Math.Min(Math.Max(x, Min), Max)` lies in [Min, Max] when Min ≤ Max and leaves in-range values alone |
| Commit.ClampIdempotent | UnityModManager/UIDraw.cs:1691-1692 | clamping twice equals clamping once |
| Commit.RoundHalfEven | UnityModManager/UIDraw.cs:1774 | `Convert.ChangeType(float, int)` rounds to the nearest integer (strictly within 0.5 off a tie), is exact on whole numbers, and breaks a tie towards the even neighbour |
| Commit.PrintedNumberAs | UnityModManager/UIDraw.cs:1693-1700 | the source's `Convert.ChangeType(num.ToString(), elem)`: a successful result has the element type |
| Commit.NumberAs | UnityModManager/UIDraw.cs:1683-1700 | the corrected conversion never raises for integral types and agrees with the source on floats |
| Commit.NumberAsRefinesPrinted | UnityModManager/UIDraw.cs:1693-1700 | wherever the source's conversion succeeds, the corrected one gives the same value |
| Commit.ZeroElement | UnityModManager/UIDraw.cs:1615 | the element '+' appends is `"0"` converted: "0" for strings, 0 for numbers |
| Commit.EditedElementWith | UnityModManager/UIDraw.cs:1683-1700 | whatever an edited entry commits has the element type |
| Commit.EditedElement | UnityModManager/UIDraw.cs:1678-1700 | corrected commit of an edited entry: a string entry commits the text as typed; wherever the source's conversion succeeds it commits the same value, and it differs only where the source raises |
| Commit.EditedNumberClamped | UnityModManager/UIDraw.cs:1683-1700 | a float/double entry always commits: the parsed number clamped into [Min, Max], or 0 for empty/unparsable text |
| Commit.EditedIntegralCommits | UnityModManager/UIDraw.cs:1684-1697 | corrected conversion (second Findings row): an integral entry always commits a value of its type, inside [Min, Max] or 0, extending the "0" fallbacks of lines 1685 and 1697 |
| Commit.FractionAsWrittenRaises | UnityModManager/UIDraw.cs:1689-1700 | as written, a fraction typed into an int entry raises FormatError |
| Commit.OverflowAsWrittenRaises | UnityModManager/UIDraw.cs:1689-1700 | as written, a whole number beyond int's range typed into an int entry raises Overflow |
| Commit.FractionFallsBackToZero | UnityModManager/UIDraw.cs:1683-1700 | corrected: a fraction typed into an int entry commits 0 |
| Commit.OverflowFallsBackToZero | UnityModManager/UIDraw.cs:1683-1700 | corrected: an out-of-range whole number typed into an int entry commits 0 |
| Commit.EditElements | UnityModManager/UIDraw.cs:1636-1703 | the element loop keeps the length and leaves entries it has not reached alone |
| Commit.EditElementsEntries | UnityModManager/UIDraw.cs:1636-1703 | kept entries are unchanged, edited entries hold their converted text, and the flag is set iff some entry was edited |
| Commit.EditElementsFails | UnityModManager/UIDraw.cs:1636-1703 | the loop raises iff some entry is null or its edit does not convert |
| Commit.Buttons | UnityModManager/UIDraw.cs:1610-1624 | '+' grows by exactly one with the zero element last; '-' shrinks by one but never below 0; earlier elements are kept |
| Commit.ArrayCommit | UnityModManager/UIDraw.cs:1578-1723 | a null array commits nothing; a change is reported iff "+" or "-" was pressed or an entry was edited; the array written (float/int/long/double/string only) is the one the buttons leave, kept entries unchanged and edited entries replaced by what their text commits; it raises iff an element reached is null or its edit does not convert |
| Commit.ScalarCommit | UnityModManager/UIDraw.cs:1586-1723 | a null scalar raises; a non-null scalar raises exactly when its text was edited and does not convert, with the conversion's error; a change is reported iff the text was edited; the value written is what the edited text commits, and is the source's value wherever the source's conversion succeeds; untouched text commits nothing |
| Commit.FloatVectorCommit | UnityModManager/UIDraw.cs:607-621 | the vector/colour written is `FloatMultiField`'s result, and it is written exactly when one of its components differs from the old one |
| Commit.IntVectorCommit | UnityModManager/UIDraw.cs:751-765 | the int vector written is `IntMultiField`'s result, and it is written exactly when one of its components differs from the old one |
| Commit.SliderCommit | UnityModManager/UIDraw.cs:1732-1776 | it raises exactly on a null value (NullReference) or when an int slider moves to a position whose rounding leaves the field type's range (Overflow); a change is reported iff the clamped position differs from the current number; floats write it, ints write it rounded half-to-even |
| Commit.ToggleCommit | UnityModManager/UIDraw.cs:1778-1806 | a toggle writes the new state exactly when it differs from the old |
| Commit.ChoiceCommit | UnityModManager/UIDraw.cs:1808-1840 | a picked index writes that member's value; an index outside the members raises |
| Commit.FlagsCommit | UnityModManager/UIDraw.cs:1843-1904 | a flags selector raises NullReference on a null value and InvalidCast unless the enum's underlying type is `int` (the `(int)` unboxing at 1863 and 1894); otherwise it writes the picked value and reports a change exactly when one was picked |
| Commit.FieldCommit | UnityModManager/UIDraw.cs:1576-1728 | the Field widget: a write implies a reported change; a null array commits nothing; a null scalar raises; a scalar reports a change iff its text was edited |
| Commit.LeafCommit | UnityModManager/UIDraw.cs:1386-1998 | KeyBinding and CustomGUI widgets commit nothing in the pass; any written value implies a reported change |
| Commit.LeafCommitTyped | UnityModManager/UIDraw.cs:1386-1998 | every leaf widget writes only values of the field's declared type |
| Commit.LeafCommitIdle | UnityModManager/UIDraw.cs:1386-1998 | with no interaction no leaf widget reports a change or writes |
| FieldWidget.Resize | UnityModManager/UIDraw.cs:1614 | `Array.Resize` keeps the common prefix and pads with nulls |
| FieldWidget.EditInPlace | UnityModManager/UIDraw.cs:1636-1703 | the in-place loop over the `object[]` computes exactly what `EditElements` specifies, including where it raises |
| FieldWidget.DrawTextEntries | UnityModManager/UIDraw.cs:1576-1728 | the imperative Field widget on arrays/scalars returns exactly `ArrayCommit` / `ScalarCommit` |
| Collapsible.RemoveFirst | UnityModManager/UIDraw.cs:1311 | `List.Remove` deletes one occurrence if present and leaves every other count unchanged |
| Collapsible.ToggledFlips | UnityModManager/UIDraw.cs:1306-1317 | a Hide/Show click flips whether the token is listed and leaves all other tokens as they were |
| Collapsible.ToggledNoDup | UnityModManager/UIDraw.cs:1306-1317 | a click keeps the list free of duplicates |
| Collapsible.ShowThenHide | UnityModManager/UIDraw.cs:1306-1317 | two clicks on a hidden group's button restore the list |
| Collapsible.CollapsibleStates.Toggle | UnityModManager/UIDraw.cs:1306-1317 | the in-place click reports whether the group was shown and leaves the list as `Toggled` specifies |
| Header.HexColor | UnityModManager/UIDraw.cs:291-296 | the colour argument always starts with '#', added only when missing |
| Header.Tags | UnityModManager/UIDraw.cs:278-298 | each tag is present exactly when its option is set |
| Header.Label | UnityModManager/UIDraw.cs:278-298 | a header with no options is drawn as its own text; a colour option puts `<color=#...>` outermost; the label is never shorter than the text |
| Header.LabelNesting | UnityModManager/UIDraw.cs:278-298 | the label is the header inside properly nested tags: opening tags outermost-first, closing tags in reverse |
| Header.HeaderAttributeBold | UnityModManager/UIDraw.cs:1252-1255 | a Unity `[Header]` is drawn between `<b>` and `</b>` |
| KeyCapture.ModifierBit | UnityModManager/UIDraw.cs:523-563 | left/right Control, Shift, Alt map to bits 1, 2, 4; every other key to 0 |
| KeyCapture.ToggledModifiersBits | UnityModManager/UIDraw.cs:448-459 | each modifier toggle decides its own bit; the other bits are kept |
| KeyCapture.ToggledModifiersUntouched | UnityModManager/UIDraw.cs:448-459 | toggles left as displayed change nothing |
| KeyCapture.ToggleBit | UnityModManager/UIDraw.cs:452-459 | on sets the bit, off clears it; no other bit moves |
| KeyCapture.ApplyModifierToggles | UnityModManager/UIDraw.cs:448-459 | the toggle loop over 1, 2, 4 yields `ToggledModifiers` |
| KeyCapture.DrawKeybinding | UnityModManager/UIDraw.cs:442-478 | a null key becomes a new binding; modifiers follow the toggles; a picked key is applied; changed iff a key was picked or the modifiers differ |
| KeyCapture.StepCases | UnityModManager/UIDraw.cs:521-572 | a modifier KeyDown ORs its bit; a modifier KeyUp with no key yet toggles its bit, takes the key and ends capture; another key's KeyUp takes it and ends capture; nothing happens outside capture |
| KeyCapture.Step | UnityModManager/UIDraw.cs:521-572 | outside a capture an event changes nothing; while capturing the key stays and modifier bits only accumulate; a capture ends only on a KeyUp, taking that key; with disableModifiers it ends with no modifiers |
| KeyCapture.Run | UnityModManager/UIDraw.cs:521-572 | over any sequence of events a capture never restarts, and while it goes on the key stays as it was and modifier bits only accumulate |
| KeyCapture.RunAfterCapture | UnityModManager/UIDraw.cs:521 | once capture has ended, further events change nothing |
| KeyCapture.RunKeepsNoKey | UnityModManager/UIDraw.cs:521-572 | from Assign, no key is recorded while still capturing |
| KeyCapture.DisabledCaptureHasNoModifiers | UnityModManager/UIDraw.cs:570-573 | with disableModifiers every finished capture from Assign has modifiers 0 |
| KeyCapture.HoldModifiers | UnityModManager/UIDraw.cs:531-563 | holding modifiers while capturing ORs in their bits and keeps capturing |
| KeyCapture.ChordCapture | UnityModManager/UIDraw.cs:521-572 | held modifiers then releasing a key records that key with the held bits (none with disableModifiers) |
| KeyCapture.ModifierTap | UnityModManager/UIDraw.cs:523-535 | pressing and releasing one modifier records that modifier key alone, with no modifier bits |
| KeyCapture.Saved | UnityModManager/UIDraw.cs:582-590 | Save reports a change iff the recorded chord differs from the bound one |
| KeyCapture.KeyCaptureWindow.Assign | UnityModManager/UIDraw.cs:577-581 | Assign resets the pending chord to (None, 0) and enters capturing; the bound key is untouched |
| KeyCapture.KeyCaptureWindow.OnKeyEvent | UnityModManager/UIDraw.cs:521-572 | the in-place event handler moves the window's state as `Step` specifies |
| KeyCapture.KeyCaptureWindow.Save | UnityModManager/UIDraw.cs:582-590 | Save writes a differing chord to the key and notifies onChange once; an equal chord leaves both alone |
| KeyCapture.KeyBinding.Change | UnityModManager/UIDraw.cs:584-587 | `key.Change(keyCode, modifiers)` sets both parts of the binding in place |
| KeyCapture.KeyCaptureWindow.Close | UnityModManager/UIDraw.cs:591-594 | Close leaves the bound key and the pending chord untouched and notifies nobody |
| KeyCapture.KeyCaptureWindow.constructor | UnityModManager/UIDraw.cs:513-517 | the window opens on a copy of the bound chord, not capturing |
| KeyCapture.DrawKeybindingSmart | UnityModManager/UIDraw.cs:499-517 | a null key without onChange raises ArgumentNull("key"); a click opens a window on a copy of the chord |
| Form.NestedStep | UnityModManager/UIDraw.cs:1270-1342 | a collapsed group only records its button click; an earlier change is never lost; a nested pass without change writes nothing |
| Form.Merged | UnityModManager/UIDraw.cs:1331-1335 | after a nested group: the group's state and exception are kept; a change is reported iff one was before or the group changed without raising; a struct's copy is lost on an exception, a class field keeps what was written into it; an unchanged group writes nothing (object identity: see Left out) |
| Form.LeafStep | UnityModManager/UIDraw.cs:1352-1998 | a field with no widget is skipped; an incompatible forced kind raises its configuration error; a leaf without change writes nothing |
| Form.DrawSpec | UnityModManager/UIDraw.cs:1179-2001 | a pass that ends without an exception and reports no change leaves the container as it was |
| Form.FieldsFrom | UnityModManager/UIDraw.cs:1189-2001 | the field loop stops at the first exception, never withdraws a reported change, and writes nothing when it ends without exception or change |
| Form.StepField | UnityModManager/UIDraw.cs:1189-1237 | whatever a field does, a change once reported stays reported, and a field that neither raises nor reports a change writes nothing |
| Form.StepFieldGate | UnityModManager/UIDraw.cs:1189-1237 | a field the gate skips leaves the pass as it was; an exception of the gate stops the pass with nothing else changed |
| Form.DrawSpecFits | UnityModManager/UIDraw.cs:1179-2001 | a pass keeps every field of its declared type and the collapsible list free of duplicates, also when it raises |
| Form.DrawSpecIdle | UnityModManager/UIDraw.cs:1179-2001 | with no interaction a pass changes nothing, reports no change and leaves the collapsible list alone |
| Form.OnlyDrawAttrDrawsNothing | UnityModManager/UIDraw.cs:1222 | under OnlyDrawAttr, a type whose fields have no `Draw` attribute draws nothing |
| Form.DrawFieldsSpec | UnityModManager/UIDraw.cs:2020-2037 | onChange runs iff a callback is given and the pass changed something without raising; its exception is logged and swallowed; the container is replaced only on a change |
| Form.DrawFieldsIdle | UnityModManager/UIDraw.cs:2020-2037 | without interaction onChange is never invoked and the container is unchanged |
| Form.DrawFieldsFits | UnityModManager/UIDraw.cs:2020-2037 | DrawFields keeps the caller's container well typed |
| Form.Draw | UnityModManager/UIDraw.cs:1179-2001 | the field loop, changing the collapsible list in place, computes exactly `DrawSpec` |
| Form.DrawField | UnityModManager/UIDraw.cs:1189-1270 | one loop iteration computes exactly `StepField` |
| Form.DrawLeaf | UnityModManager/UIDraw.cs:1352-1998 | the leaf dispatch, using the in-place array editor, computes exactly `LeafStep` |
| Form.DrawNested | UnityModManager/UIDraw.cs:1270-1342 | the nested group with its Hide/Show button computes exactly `NestedStep` |
| Form.DrawFields | UnityModManager/UIDraw.cs:2020-2037 | the top-level entry computes exactly `DrawFieldsSpec` |
| Form.DrawInstance | UnityModManager/UIDraw.cs:2048-2051 | `instance.Draw(mod)` is DrawFields under OnlyDrawAttr with the instance's OnChange |

## Left out

- All GUI drawing and layout (`GUILayout`/`GUI`, `Scale`, widths and heights, boxes, horizontal/vertical framing, tooltips, `ShowWindow`). User input is a parameter instead.
- Reflection (`GetFields`, attributes, `GetValue`/`SetValue`, `MetadataToken`). An explicit schema replaces it. Field order is the schema's order.
- The `unique` scope token. It only keeps popup identities apart and does not influence any value.
- `CustomGUI` delegate invocation via `DynamicInvoke` is foreign user code. The model checks the delegate's signature and commits nothing.
- Opening and closing decorative attributes (`DrawSpace`, `DrawBeginHorizontal`, …). They draw only and change no value. `DrawHeaderAttribute.Draw`'s text is modelled in `Header`.
- `ToggleGroup`, `ToggleMulti`, `PopupToggleGroup` and `PopupToggleMulti` are defined outside this file. The model takes the index or flags value they return as input. The flags involution lives in those helpers and is therefore not modelled.
- Logging through `mod.Logger` is modelled only as the `logged` flag of `FormResult`.
- Form.Merged: values have no object identity. A class object held in a field of a struct is a value inside the struct's copy. When the struct's pass raises, the model drops the struct's copy together with the edits made inside that class object. The source keeps those edits, because the copy only points to the shared object (lines 1332-1335).
- Form.DrawFieldsSpec: for the same reason, when the pass raises, the container returned drops edits that the source keeps in class objects nested inside structs. Two fields that refer to one class object are not modelled either: each field holds its own value, so an edit through one is not seen through the other.
- Visibility.PropertyPredicate: a property is a value fixed for the whole pass (`SetField` leaves `props` as they were). The source calls the getter on the live container (line 1125). A getter that depends on fields edited earlier in the same pass therefore sees the new values in the source and the old ones in the model.
- Visibility.Compare: the source compares `GetHashCode()` values (lines 1073, 1126), which can give false positives on collisions. The model uses direct typed equality.
- Visibility.EnumParse: comma-separated flag lists are not modelled. Names are matched case-sensitively, as the two-argument `Enum.Parse` does.
- Visibility.Literal: a number outside the field type's range makes `Convert.ChangeType` raise an `OverflowException` in the source (line 1059). The model reports it as an unparsable literal.
- Visibility.Admit: the form evaluates `VisibleOn`/`InvisibleOn` with the corrected `DependsOn` of the first Findings row, which also compares string members. `DependsOnAsWritten` is the source's test and agrees with it wherever it does not raise.
- Text.ParseDecimal: exponents, thousands separators, culture settings, `NaN`/`Infinity` and the `double` range are not modelled. Numbers are exact reals.
- Text.ParseDecimal: the further forms `NumberStyles.Any` admits for the float multi-field (line 847) are not modelled. These are a number in parentheses ("(5)" is -5), a trailing sign ("5-" is -5) and a currency symbol. `MultiField.FloatEntry` therefore reads such text as 0, where the source reads the number.
- MultiField.FloatMultiField: a kept component is taken to read back as its old value. The `ToString("f6")` round trip, which can change a float with more than six decimals, is not modelled.
- Commit.SliderCommit: the `(float)` casts and the `Math.Round(result, Precision)` rounding of floating sliders (lines 1759-1776) are not modelled. The committed value is the clamped position itself.
- Commit.EditedElement: the display of float elements with `ToString($"f{Precision}")` is not modelled. An entry is either kept or edited.
- Commit.EditedElement: the form commits integral entries with the corrected conversion of the second Findings row. Where the source raises a `FormatException` or `OverflowException` (a fraction, a number beyond the type), the model commits 0 instead. `EditedElementWith(..., false)` is the source's conversion, and the two agree wherever it succeeds.
- Commit.ScalarCommit: uses the corrected `EditedElement`, so it differs from the source only where the source's conversion raises.
- Commit.ArrayCommit: uses the corrected `EditedElement`, so it differs from the source only where the source's conversion raises.
- Commit.SliderCommit: Unity's `HorizontalSlider` (outside this file) spans [Max, Min] when `Min > Max`. The model clamps a position below Min to Max in that case, and such positions are not modelled faithfully.
- Commit.PrintedNumberAs: `double.ToString()` is modelled only as far as needed: whole numbers below 10^15 print as digits, and every other number is rejected by integral parsers.
- KeyCapture.KeyCaptureWindow.Save: a KeyBinding field passes a callback (lines 1961-1965) that runs `f.SetValue(container, k)` and sets `changed` when the capture window saves, in a later frame after the pass has returned. The binding written is the field's own object, or a fresh `new KeyBinding()` when the field was null. In a class container this stores the binding into the field. That write happens outside any pass and is not modelled, so the form's leaf commit for key bindings reports no change and writes nothing.

## Findings

| source | as written | input that shows it | evidently intended | confidence | as-written member | corrected member |
|---|---|---|---|---|---|---|
| UnityModManager/UIDraw.cs:1030 | `DependsOn` raises "not supported" for every non-primitive, non-enum member, so a string member is always rejected and the string branch at line 1051 is unreachable | `VisibleOn` set to `Name`, bar, `Bob` on a `string Name` field | string members are compared with the literal text, as the `VisibleOn`/`InvisibleOn` documentation (lines 136-141) and the branch at 1051 say | high, not executed | Visibility.StringFieldRejected | Visibility.StringFieldCompared |
| UnityModManager/UIDraw.cs:1689-1700 | an edited integral entry is parsed as a `double`, clamped, printed and converted back with `Convert.ChangeType`, which raises on a fraction or an out-of-range number | typing `1.5` (FormatException) or `3000000000` (OverflowException) into an `int` field | unparsable input falls back to 0 like the other unparsable text, and never aborts the pass | medium, not executed | Commit.FractionAsWrittenRaises | Commit.FractionFallsBackToZero |
