/**
 * Leaf commits: what one leaf widget does to its field in a pass, given the
 * user's input.  A `Field` widget parses and clamps edited text (with "0" as the
 * fallback) and lets arrays grow and shrink; vectors go through the multi-field
 * parsers; sliders, toggles, enum selectors and flag selectors write the value
 * the widget reports.
 */
module Commit {
  import opened Wrappers
  import opened Text
  import opened Schema
  import opened MultiField
  import opened Widgets

  /** The user's input to one field's widgets in this pass. */
  datatype FieldInput = FieldInput(
    /**
     * The text fields of a `Field` widget: one per array element, vector
     * component, or the scalar.  A field counts as `Edited` only when the text it
     * returns differs from the text it displayed, as the comparison of the
     * returned text with the displayed one decides.
     */
    boxes: seq<TextBox>,
    /** The array's "+" and "-" buttons. */
    plus: bool,
    minus: bool,
    /** Where the slider was dragged to. */
    slider: Option<real>,
    /** The state a toggle was clicked to. */
    toggle: Option<bool>,
    /** The index picked in a toggle group or popup list. */
    choice: Option<int>,
    /** The value picked in a flags selector. */
    flags: Option<int>,
    /** The collapsible group's Hide/Show button. */
    collapse: bool)

  /** No interaction at all. */
  const Idle: FieldInput := FieldInput([], false, false, None, None, None, None, false)

  /** What a leaf widget reports: whether it changed the field, and the value written back if any. */
  datatype Commit = Commit(changed: bool, write: Option<Value>)

  const NoCommit: Commit := Commit(false, None)

  /** `Math.Min(Math.Max(x, lo), hi)`. */
  function Clamp(x: real, lo: real, hi: real): (r: real)
    ensures r <= hi
    ensures lo <= hi ==> lo <= r
    ensures lo <= x <= hi ==> r == x
    ensures x < lo ==> r == (if lo < hi then lo else hi)
    ensures x > hi ==> r == hi
  {
    var m := if x > lo then x else lo;
    if m < hi then m else hi
  }

  /** Clamping a clamped value changes nothing. */
  lemma ClampIdempotent(x: real, lo: real, hi: real)
    requires lo <= hi
    ensures Clamp(Clamp(x, lo, hi), lo, hi) == Clamp(x, lo, hi)
  {
  }

  predicate IsWhole(x: real) {
    x == x.Floor as real
  }

  /** Rounding to the nearest integer, ties to the even one (`Convert.ToInt32(double)`). */
  function RoundHalfEven(x: real): (n: int)
    ensures -0.5 <= n as real - x <= 0.5
    ensures IsWhole(x) ==> n == x.Floor
    ensures x - x.Floor as real != 0.5 ==> -0.5 < n as real - x < 0.5
    ensures x - x.Floor as real == 0.5 ==> n % 2 == 0
  {
    var f := x.Floor;
    var d := x - f as real;
    if d < 0.5 then f
    else if d > 0.5 then f + 1
    else if f % 2 == 0 then f
    else f + 1
  }

  /**
   * `Convert.ChangeType(num.ToString(), elem)` as the source writes it, for a
   * non-string element type.  The text of a whole number below 10^15 in size
   * is its digits; any other number prints with a decimal point or an exponent,
   * which an integral type's parser rejects.
   */
  function PrintedNumberAs(num: real, elem: FieldType): (r: Result<Value, Error>)
    requires elem != Str
    ensures r.Ok? ==> HasType(r.value, elem)
  {
    match elem
    case Prim(k) =>
      (match k
       case Bool => Err(FormatError)
       case Char => if IsWhole(num) && 0.0 <= num < 10.0 then Ok(VChar(Digit(num.Floor))) else Err(FormatError)
       case Integral(sg, w) =>
         if !IsWhole(num) || num <= -1000000000000000.0 || num >= 1000000000000000.0 then Err(FormatError)
         else if !InIntegralRange(num.Floor, sg, w) then Err(Overflow)
         else Ok(VInt(num.Floor))
       case Float => Ok(VReal(num))
       case Double => Ok(VReal(num)))
    case _ => Err(InvalidCast)
  }

  /**
   * The conversion with the "0" fallback carried through: a number an integral
   * element type cannot hold becomes 0, as unparsable text already does.
   */
  function NumberAs(num: real, elem: FieldType): (r: Result<Value, Error>)
    requires elem != Str
    ensures r.Ok? ==> HasType(r.value, elem)
    ensures elem.Prim? && elem.kind.Integral? ==> r.Ok?
    ensures elem.Prim? && (elem.kind.Float? || elem.kind.Double?) ==> r == Ok(VReal(num))
    ensures !(elem.Prim? && elem.kind.Integral?) ==> r == PrintedNumberAs(num, elem)
  {
    if elem.Prim? && elem.kind.Integral? then
      var sg, w := elem.kind.signed, elem.kind.width;
      if IsWhole(num) && InIntegralRange(num.Floor, sg, w) then Ok(VInt(num.Floor))
      else Ok(VInt(0))
    else PrintedNumberAs(num, elem)
  }

  /** Where both conversions succeed they agree: the correction only replaces raised errors. */
  lemma NumberAsRefinesPrinted(num: real, elem: FieldType)
    requires elem != Str && PrintedNumberAs(num, elem).Ok?
    ensures NumberAs(num, elem) == PrintedNumberAs(num, elem)
  {
  }

  /** `Convert.ChangeType("0", elem)`: the value the "+" button appends. */
  function ZeroElement(elem: FieldType): (r: Result<Value, Error>)
    ensures r.Ok? ==> HasType(r.value, elem)
    ensures elem == Str ==> r == Ok(VStr("0"))
    ensures elem.Prim? && elem.kind.Integral? ==> r == Ok(VInt(0))
    ensures elem.Prim? && (elem.kind.Float? || elem.kind.Double?) ==> r == Ok(VReal(0.0))
  {
    if elem == Str then Ok(VStr("0")) else PrintedNumberAs(0.0, elem)
  }

  /**
   * The value an edited entry commits: string text as typed; any other text
   * parsed, clamped into [lo, hi] and converted, with "0" for empty or
   * unparsable text.  `fallback` selects the corrected conversion.
   */
  function EditedElementWith(text: string, elem: FieldType, lo: real, hi: real, fallback: bool): (r: Result<Value, Error>)
    ensures r.Ok? ==> HasType(r.value, elem)
  {
    if elem == Str then Ok(VStr(text))
    else
      var num :=
        if text == "" then 0.0
        else match ParseDecimal(text)
          case Some(x) => Clamp(x, lo, hi)
          case None => 0.0;
      if fallback then NumberAs(num, elem) else PrintedNumberAs(num, elem)
  }

  /**
   * The commit of an edited entry with the corrected conversion.  Wherever the
   * source's conversion succeeds this is the value it commits; the two differ
   * only where the source raises.
   */
  function EditedElement(text: string, elem: FieldType, lo: real, hi: real): (r: Result<Value, Error>)
    ensures r.Ok? ==> HasType(r.value, elem)
    ensures elem == Str ==> r == Ok(VStr(text))
    ensures EditedElementWith(text, elem, lo, hi, false).Ok? ==> r == EditedElementWith(text, elem, lo, hi, false)
    ensures r != EditedElementWith(text, elem, lo, hi, false) ==> EditedElementWith(text, elem, lo, hi, false).Err?
  {
    EditedElementWith(text, elem, lo, hi, true)
  }

  /** A numeric entry always commits, and what it commits lies within the bounds or is 0. */
  lemma EditedNumberClamped(text: string, elem: FieldType, lo: real, hi: real)
    requires elem.Prim? && (elem.kind.Float? || elem.kind.Double?) && lo <= hi
    ensures EditedElement(text, elem, lo, hi).Ok?
    ensures var v := EditedElement(text, elem, lo, hi).value;
      v.VReal? && ((lo <= v.r <= hi) || v.r == 0.0)
    ensures ParseDecimal(text).Some? ==> EditedElement(text, elem, lo, hi) == Ok(VReal(Clamp(ParseDecimal(text).value, lo, hi)))
    ensures text == "" || ParseDecimal(text).None? ==> EditedElement(text, elem, lo, hi) == Ok(VReal(0.0))
  {
  }

  /** With the corrected conversion an integral entry always commits a value of the type: within the bounds, or 0. */
  lemma EditedIntegralCommits(text: string, elem: FieldType, lo: real, hi: real)
    requires elem.Prim? && elem.kind.Integral? && lo <= hi
    ensures EditedElement(text, elem, lo, hi).Ok?
    ensures var v := EditedElement(text, elem, lo, hi).value;
      v.VInt? && InIntegralRange(v.i, elem.kind.signed, elem.kind.width) && ((lo <= v.i as real <= hi) || v.i == 0)
  {
  }

  /** The text "1.5" parses to one and a half. */
  lemma OneAndAHalf()
    ensures ParseDecimal("1.5") == Some(1.5) && !IsWhole(1.5)
  {
    var t := "1.5";
    assert Trim(t) == t by { NoWhiteTrim(t); }
    assert IndexOf(t, '.') == Some(1) by {
      assert t[0] != '.' && t[1..][0] == '.';
    }
    assert t[..1] == "1" && t[2..] == "5";
    assert DigitsValue("1") == 1 && DigitsValue("5") == 5;
    assert ParseUnsignedDecimal(t) == Some(1.5);
  }

  /** As written, typing a fraction (such as "1.5") into an `int` entry raises instead of committing. */
  lemma FractionAsWrittenRaises(text: string, x: real)
    requires text != "" && ParseDecimal(text) == Some(x)
    requires !IsWhole(x) && -DoubleMaxValue <= x <= DoubleMaxValue
    ensures EditedElementWith(text, Int32, -DoubleMaxValue, DoubleMaxValue, false) == Err(FormatError)
  {
    assert Clamp(x, -DoubleMaxValue, DoubleMaxValue) == x;
  }

  /** A whole number beyond `int`'s range, and below 10^15, converts to an overflow as written. */
  lemma PrintedOverflow(n: int)
    requires Int32Max < n < 1000000000000000
    ensures PrintedNumberAs(n as real, Int32) == Err(Overflow)
  {
    var x := n as real;
    assert x.Floor == n;
    assert IsWhole(x);
    assert !InIntegralRange(n, true, W32);
  }

  /** Any text that parses to a whole number beyond `int`'s range, and below 10^15, raises an overflow as written. */
  lemma PrintedOverflowRaises(text: string, n: int)
    requires Int32Max < n < 1000000000000000
    requires text != "" && ParseDecimal(text) == Some(n as real)
    ensures EditedElementWith(text, Int32, -DoubleMaxValue, DoubleMaxValue, false) == Err(Overflow)
  {
    assert Clamp(n as real, -DoubleMaxValue, DoubleMaxValue) == n as real;
    PrintedOverflow(n);
  }

  /** As written, typing a whole number beyond `int`'s range into an `int` entry raises too. */
  lemma OverflowAsWrittenRaises(n: int)
    requires Int32Max < n < 1000000000000000
    ensures EditedElementWith(IntToString(n), Int32, -DoubleMaxValue, DoubleMaxValue, false) == Err(Overflow)
  {
    var t := IntToString(n);
    ParseIntegerOfIntToString(n);
    ParseDecimalExtendsParseInteger(t);
    PrintedOverflowRaises(t, n);
  }

  /** With the fallback a fraction typed into an `int` entry commits 0. */
  lemma FractionFallsBackToZero(text: string, x: real)
    requires text != "" && ParseDecimal(text) == Some(x)
    requires !IsWhole(x) && -DoubleMaxValue <= x <= DoubleMaxValue
    ensures EditedElement(text, Int32, -DoubleMaxValue, DoubleMaxValue) == Ok(VInt(0))
  {
    assert Clamp(x, -DoubleMaxValue, DoubleMaxValue) == x;
  }

  /** With the fallback a whole number beyond `int`'s range commits 0. */
  lemma OverflowFallsBackToZero(n: int)
    requires Int32Max < n < 1000000000000000
    ensures EditedElement(IntToString(n), Int32, -DoubleMaxValue, DoubleMaxValue) == Ok(VInt(0))
  {
    OverflowAsWrittenRaises(n);
  }

  /** The conversion every edited entry of a field goes through. */
  function Conversion(elem: FieldType, lo: real, hi: real): (f: string -> Result<Value, Error>)
    ensures forall text :: f(text) == EditedElement(text, elem, lo, hi)
  {
    text => EditedElement(text, elem, lo, hi)
  }

  /**
   * The element loop over the first `n` entries: each entry's text is taken
   * (raising on a null element), and an edited entry commits the value its
   * text converts to.  The flag says whether any entry was edited.
   */
  function EditElements(values: seq<Value>, boxes: seq<TextBox>, convert: string -> Result<Value, Error>, n: nat): (r: Result<(seq<Value>, bool), Error>)
    requires n <= |values|
    ensures r.Ok? ==> |r.value.0| == |values|
    ensures r.Ok? ==> forall j :: n <= j < |values| ==> r.value.0[j] == values[j]
    decreases n
  {
    if n == 0 then Ok((values, false))
    else
      match EditElements(values, boxes, convert, n - 1)
      case Err(e) => Err(e)
      case Ok(p) =>
        var j := n - 1;
        if values[j] == VNull then Err(NullReference)
        else match BoxAt(boxes, j)
          case Kept => Ok(p)
          case Edited(s) =>
            match convert(s)
            case Err(e) => Err(e)
            case Ok(x) => Ok((p.0[j := x], true))
  }

  /**
   * What the element loop leaves: a kept entry's element as it was, an edited
   * entry's element the value its text commits, and the flag set exactly when
   * some entry was edited.
   */
  lemma {:induction false} EditElementsEntries(values: seq<Value>, boxes: seq<TextBox>, convert: string -> Result<Value, Error>, n: nat)
    requires n <= |values|
    requires EditElements(values, boxes, convert, n).Ok?
    ensures var p := EditElements(values, boxes, convert, n).value;
      (forall j :: 0 <= j < n && BoxAt(boxes, j).Kept? ==> p.0[j] == values[j]) &&
      (forall j :: 0 <= j < n && BoxAt(boxes, j).Edited? ==> convert(BoxAt(boxes, j).text) == Ok(p.0[j])) &&
      (p.1 <==> exists j :: 0 <= j < n && BoxAt(boxes, j).Edited?)
  {
    if n > 0 {
      EditElementsEntries(values, boxes, convert, n - 1);
      var q := EditElements(values, boxes, convert, n - 1).value;
      var p := EditElements(values, boxes, convert, n).value;
      var b := BoxAt(boxes, n - 1);
      if b.Kept? {
        assert p == q;
      } else {
        var x := convert(b.text);
        assert x.Ok? && p == (q.0[n - 1 := x.value], true);
        forall j | 0 <= j < n && BoxAt(boxes, j).Edited?
          ensures convert(BoxAt(boxes, j).text) == Ok(p.0[j])
        {
          if j < n - 1 {
            assert p.0[j] == q.0[j];
          }
        }
        assert 0 <= n - 1 < n && BoxAt(boxes, n - 1).Edited?;
      }
    }
  }

  /** An entry raises when its element is null or its edit cannot be converted. */
  predicate ElementFails(v: Value, b: TextBox, convert: string -> Result<Value, Error>) {
    v == VNull || (b.Edited? && convert(b.text).Err?)
  }

  /** The loop raises exactly when one of the entries it reaches fails. */
  lemma {:induction false} EditElementsFails(values: seq<Value>, boxes: seq<TextBox>, convert: string -> Result<Value, Error>, n: nat)
    requires n <= |values|
    ensures EditElements(values, boxes, convert, n).Err? <==>
      exists j :: 0 <= j < n && ElementFails(values[j], BoxAt(boxes, j), convert)
  {
    if n > 0 {
      EditElementsFails(values, boxes, convert, n - 1);
      var r := EditElements(values, boxes, convert, n - 1);
      var last := ElementFails(values[n - 1], BoxAt(boxes, n - 1), convert);
      var earlier := exists j :: 0 <= j < n - 1 && ElementFails(values[j], BoxAt(boxes, j), convert);
      assert (exists j :: 0 <= j < n && ElementFails(values[j], BoxAt(boxes, j), convert)) <==> earlier || last by {
        if last {
          assert 0 <= n - 1 < n && ElementFails(values[n - 1], BoxAt(boxes, n - 1), convert);
        }
      }
      if r.Ok? {
        assert EditElements(values, boxes, convert, n).Err? <==> last;
      } else {
        assert EditElements(values, boxes, convert, n).Err?;
      }
    }
  }

  /** The array after its "+" and "-" buttons: one zero element appended, then one element removed. */
  function Buttons(values: seq<Value>, plus: bool, minus: bool, elem: FieldType): (r: Result<seq<Value>, Error>)
    ensures plus && ZeroElement(elem).Err? ==> r == Err(ZeroElement(elem).error)
    ensures r.Ok? ==> |r.value| == (if minus && |values| + (if plus then 1 else 0) > 0 then |values| + (if plus then 1 else 0) - 1
                                    else |values| + (if plus then 1 else 0))
    ensures r.Ok? ==> forall j :: 0 <= j < |r.value| && j < |values| ==> r.value[j] == values[j]
    ensures r.Ok? && plus && !minus ==> r.value[|values|] == ZeroElement(elem).value
    ensures !plus ==> r.Ok?
  {
    var grown :=
      if !plus then Ok(values)
      else match ZeroElement(elem)
        case Ok(z) => Ok(values + [z])
        case Err(e) => Err(e);
    match grown
    case Err(e) => Err(e)
    case Ok(g) => Ok(if minus then g[..if |g| - 1 > 0 then |g| - 1 else 0] else g)
  }

  /** The element types whose arrays are written back after an edit. */
  predicate WrittenBack(elem: FieldType) {
    elem in {Single, Int32, Int64, Real64, Str}
  }

  /**
   * The `Field` widget on an array: buttons first, then the entries.  A change
   * is reported exactly when a button was pressed or an entry edited; the array
   * written back is the one the buttons leave, with every edited entry replaced
   * by what its text commits.  The pass raises exactly when an element it
   * reaches is null or its edit does not convert.
   */
  function ArrayCommit(elem: FieldType, v: Value, inp: FieldInput, lo: real, hi: real): (r: Result<Commit, Error>)
    ensures v.VNull? ==> r == Ok(NoCommit)
    ensures r.Ok? && r.value.write.Some? ==> r.value.changed && WrittenBack(elem) && r.value.write.value.VArr?
    ensures r.Ok? && r.value.write.Some? ==> v.VArr?
    ensures r.Ok? && v.VArr? ==> Buttons(v.elems, inp.plus, inp.minus, elem).Ok?
    ensures r.Ok? && v.VArr? && Buttons(v.elems, inp.plus, inp.minus, elem).Ok? ==>
      var vals := Buttons(v.elems, inp.plus, inp.minus, elem).value;
      (r.value.changed <==> inp.plus || inp.minus || exists j :: 0 <= j < |vals| && BoxAt(inp.boxes, j).Edited?)
      && (r.value.changed && WrittenBack(elem) ==> r.value.write.Some?)
    ensures r.Ok? && r.value.write.Some? && v.VArr? && Buttons(v.elems, inp.plus, inp.minus, elem).Ok? ==>
      var vals := Buttons(v.elems, inp.plus, inp.minus, elem).value;
      var w := r.value.write.value.elems;
      |w| == |vals|
      && (forall j :: 0 <= j < |vals| && BoxAt(inp.boxes, j).Kept? ==> w[j] == vals[j])
      && (forall j :: 0 <= j < |vals| && BoxAt(inp.boxes, j).Edited? ==> EditedElement(BoxAt(inp.boxes, j).text, elem, lo, hi) == Ok(w[j]))
    ensures v.VArr? && Buttons(v.elems, inp.plus, inp.minus, elem).Ok? ==> var vals := Buttons(v.elems, inp.plus, inp.minus, elem).value;
      (r.Err? <==> exists j :: 0 <= j < |vals| && ElementFails(vals[j], BoxAt(inp.boxes, j), Conversion(elem, lo, hi)))
  {
    if v.VNull? then Ok(NoCommit)
    else if !v.VArr? then Err(InvalidCast)
    else match Buttons(v.elems, inp.plus, inp.minus, elem)
      case Err(e) => Err(e)
      case Ok(vals) =>
        EditElementsFails(vals, inp.boxes, Conversion(elem, lo, hi), |vals|);
        match EditElements(vals, inp.boxes, Conversion(elem, lo, hi), |vals|)
        case Err(e) => Err(e)
        case Ok(p) =>
          EditElementsEntries(vals, inp.boxes, Conversion(elem, lo, hi), |vals|);
          var changed := inp.plus || inp.minus || p.1;
          Ok(Commit(changed, if changed && WrittenBack(elem) then Some(VArr(p.0)) else None))
  }

  /** The `Field` widget on a single number or string. */
  function ScalarCommit(ft: FieldType, v: Value, inp: FieldInput, lo: real, hi: real): (r: Result<Commit, Error>)
    ensures v.VNull? ==> r == Err(NullReference)
    ensures r.Ok? ==> (r.value.changed <==> BoxAt(inp.boxes, 0).Edited?)
    ensures r.Ok? && r.value.changed ==>
      r.value.write.Some? && EditedElement(BoxAt(inp.boxes, 0).text, ft, lo, hi) == Ok(r.value.write.value)
    ensures r.Ok? && r.value.changed && EditedElementWith(BoxAt(inp.boxes, 0).text, ft, lo, hi, false).Ok? ==>
      r.value.write == Some(EditedElementWith(BoxAt(inp.boxes, 0).text, ft, lo, hi, false).value)
    ensures r.Ok? && !r.value.changed ==> r.value.write.None?
    ensures !v.VNull? && BoxAt(inp.boxes, 0).Kept? ==> r == Ok(NoCommit)
    ensures !v.VNull? ==>
      (r.Err? <==> BoxAt(inp.boxes, 0).Edited? && EditedElement(BoxAt(inp.boxes, 0).text, ft, lo, hi).Err?)
    ensures !v.VNull? && r.Err? ==> r.error == EditedElement(BoxAt(inp.boxes, 0).text, ft, lo, hi).error
  {
    if v.VNull? then Err(NullReference)
    else match EditElements([v], inp.boxes, Conversion(ft, lo, hi), 1)
      case Err(e) => Err(e)
      case Ok(p) =>
        EditElementsEntries([v], inp.boxes, Conversion(ft, lo, hi), 1);
        Ok(Commit(p.1, if p.1 then Some(p.0[0]) else None))
  }

  /** The labels `DrawVector` and `DrawColor` hand to the multi-field parser. */
  function Labels(ft: FieldType): (ls: seq<string>)
    ensures |ls| == FloatComponents(ft) + IntComponents(ft)
  {
    match ft
    case Vector2 => ["x", "y"]
    case Vector3 => ["x", "y", "z"]
    case Vector4 => ["x", "y", "z", "w"]
    case Color => ["r", "g", "b", "a"]
    case Vector2i => ["x", "y"]
    case Vector3i => ["x", "y", "z"]
    case _ => []
  }

  /**
   * `DrawVector`/`DrawColor` on a float vector: the components `FloatMultiField`
   * reads back are written as a new vector exactly when one of them differs.
   */
  function FloatVectorCommit(ft: FieldType, v: Value, boxes: seq<TextBox>): (r: Result<Commit, Error>)
    requires FloatComponents(ft) > 0
    ensures r.Err? <==> !(v.VVec? && |v.comps| == FloatComponents(ft))
    ensures r.Ok? ==> (r.value.write.Some? <==> r.value.changed)
    ensures r.Ok? ==> var comps := FloatMultiField(v.comps, Labels(ft), boxes).value.0;
      (r.value.changed <==> comps != v.comps) && (r.value.changed ==> r.value.write == Some(VVec(comps)))
    ensures r.Ok? && r.value.changed ==>
      (r.value.write.value.VVec? && r.value.write.value.comps != v.comps && |r.value.write.value.comps| == |v.comps|)
  {
    if !(v.VVec? && |v.comps| == FloatComponents(ft)) then Err(InvalidCast)
    else match FloatMultiField(v.comps, Labels(ft), boxes)
      case Err(e) => Err(e)
      case Ok(p) => Ok(if p.1 then Commit(true, Some(VVec(p.0))) else NoCommit)
  }

  /**
   * `DrawVector` on an int vector: the components `IntMultiField` reads back
   * are written as a new vector exactly when one of them differs.
   */
  function IntVectorCommit(ft: FieldType, v: Value, boxes: seq<TextBox>): (r: Result<Commit, Error>)
    requires IntComponents(ft) > 0
    ensures r.Err? <==> !(v.VVeci? && |v.icomps| == IntComponents(ft))
    ensures r.Ok? ==> (r.value.write.Some? <==> r.value.changed)
    ensures r.Ok? ==> var comps := IntMultiField(v.icomps, Labels(ft), boxes).value.0;
      (r.value.changed <==> comps != v.icomps) && (r.value.changed ==> r.value.write == Some(VVeci(comps)))
    ensures r.Ok? && r.value.changed ==>
      (r.value.write.value.VVeci? && r.value.write.value.icomps != v.icomps && |r.value.write.value.icomps| == |v.icomps|)
  {
    if !(v.VVeci? && |v.icomps| == IntComponents(ft)) then Err(InvalidCast)
    else match IntMultiField(v.icomps, Labels(ft), boxes)
      case Err(e) => Err(e)
      case Ok(p) => Ok(if p.1 then Commit(true, Some(VVeci(p.0))) else NoCommit)
  }

  /**
   * The `Field` widget, by field type: vectors and colours through the
   * multi-field parsers, arrays element by element, anything else as a single
   * entry.  A null array is left alone; a null scalar raises.
   */
  function FieldCommit(ft: FieldType, v: Value, inp: FieldInput, a: DrawAttr): (r: Result<Commit, Error>)
    ensures r.Ok? && r.value.write.Some? ==> r.value.changed
    ensures ft.Arr? && v.VNull? ==> r == Ok(NoCommit)
    ensures FloatComponents(ft) == 0 && IntComponents(ft) == 0 && !ft.Arr? && v.VNull? ==> r == Err(NullReference)
    ensures FloatComponents(ft) == 0 && IntComponents(ft) == 0 && !ft.Arr? && r.Ok? ==>
      (r.value.changed <==> BoxAt(inp.boxes, 0).Edited?)
  {
    if FloatComponents(ft) > 0 then FloatVectorCommit(ft, v, inp.boxes)
    else if IntComponents(ft) > 0 then IntVectorCommit(ft, v, inp.boxes)
    else if ft.Arr? then ArrayCommit(ft.elem, v, inp, a.min, a.max)
    else ScalarCommit(ft, v, inp, a.min, a.max)
  }

  /** A slider's number: the field's value read back through its text, 0 when it does not parse. */
  function SliderNumber(v: Value): real {
    match v
    case VInt(i) => i as real
    case VReal(r) => r
    case _ => 0.0
  }

  /**
   * The slider: the widget answers with a position inside the bounds; when it
   * differs from the current number it is converted to the field's type.
   */
  function SliderCommit(ft: FieldType, v: Value, pos: Option<real>, lo: real, hi: real): (r: Result<Commit, Error>)
    requires InSliderTypes(ft)
    ensures v.VNull? ==> r == Err(NullReference)
    ensures r.Ok? ==> (r.value.changed <==> pos.Some? && Clamp(pos.value, lo, hi) != SliderNumber(v))
    ensures r.Ok? && r.value.changed && ft in {Single, Real64} ==> r.value.write == Some(VReal(Clamp(pos.value, lo, hi)))
    ensures r.Ok? && r.value.changed && ft in {Int32, Int64} ==> r.value.write == Some(VInt(RoundHalfEven(Clamp(pos.value, lo, hi))))
    ensures r.Ok? ==> (r.value.write.Some? <==> r.value.changed)
    ensures r.Err? <==>
      (v.VNull? ||
       (pos.Some? && Clamp(pos.value, lo, hi) != SliderNumber(v) && ft in {Int32, Int64} &&
        !InIntegralRange(RoundHalfEven(Clamp(pos.value, lo, hi)), true, ft.kind.width)))
    ensures r.Err? && !v.VNull? ==> r.error == Overflow
  {
    if v.VNull? then Err(NullReference)
    else match pos
      case None => Ok(NoCommit)
      case Some(p) =>
        var res := Clamp(p, lo, hi);
        if res == SliderNumber(v) then Ok(NoCommit)
        else if ft in {Single, Real64} then Ok(Commit(true, Some(VReal(res))))
        else
          var n := RoundHalfEven(res);
          if InIntegralRange(n, true, ft.kind.width) then Ok(Commit(true, Some(VInt(n)))) else Err(Overflow)
  }

  /** The toggle: a click to the other state writes it. */
  function ToggleCommit(v: Value, toggle: Option<bool>): (r: Result<Commit, Error>)
    ensures r.Ok? <==> v.VBool?
    ensures r.Ok? ==> (r.value.changed <==> toggle.Some? && toggle.value != v.b)
    ensures r.Ok? && r.value.changed ==> r.value.write == Some(VBool(toggle.value))
    ensures r.Ok? && !r.value.changed ==> r.value.write.None?
  {
    if v.VNull? then Err(NullReference)
    else if !v.VBool? then Err(InvalidCast)
    else match toggle
      case Some(b) => if b != v.b then Ok(Commit(true, Some(VBool(b)))) else Ok(NoCommit)
      case None => Ok(NoCommit)
  }

  /** A toggle group or popup list: the picked index selects a member, whose value is written. */
  function ChoiceCommit(d: EnumDecl, choice: Option<int>): (r: Result<Commit, Error>)
    ensures choice.None? ==> r == Ok(NoCommit)
    ensures choice.Some? && 0 <= choice.value < |d.members| ==> r == Ok(Commit(true, Some(VEnum(d.members[choice.value].value))))
    ensures choice.Some? && !(0 <= choice.value < |d.members|) ==> r == Err(IndexOutOfRange)
  {
    match choice
    case None => Ok(NoCommit)
    case Some(j) => if 0 <= j < |d.members| then Ok(Commit(true, Some(VEnum(d.members[j].value)))) else Err(IndexOutOfRange)
  }

  /** An enum whose underlying type is `int`: the only one whose boxed value unboxes as `(int)`. */
  predicate IntBacked(ft: FieldType) {
    ft.Enum? && ft.enumDecl.signed && ft.enumDecl.width == W32
  }

  /**
   * A flags selector: the value is unboxed as an `int`, which raises unless
   * the enum's underlying type is `int`, and a picked value is written.
   */
  function FlagsCommit(ft: FieldType, v: Value, flags: Option<int>): (r: Result<Commit, Error>)
    ensures r.Ok? <==> v.VEnum? && IntBacked(ft)
    ensures v.VNull? ==> r == Err(NullReference)
    ensures !v.VNull? && !IntBacked(ft) ==> r == Err(InvalidCast)
    ensures r.Ok? ==> r.value == (if flags.Some? then Commit(true, Some(VEnum(flags.value))) else NoCommit)
  {
    if v.VNull? then Err(NullReference)
    else if !v.VEnum? || !IntBacked(ft) then Err(InvalidCast)
    else match flags
      case Some(x) => Ok(Commit(true, Some(VEnum(x))))
      case None => Ok(NoCommit)
  }

  /** What a leaf widget of an accepted kind does to its field's value `v`. */
  function LeafCommit(k: DrawType, ft: FieldType, v: Value, inp: FieldInput, a: DrawAttr): (r: Result<Commit, Error>)
    requires k != Field || InFieldTypes(ft) || ft.Arr?
    requires k != Slider || InSliderTypes(ft)
    requires k in {ToggleGroup, PopupList} ==> ft.Enum?
    ensures k in {Auto, Ignore, KeyBinding, KeyBindingNoMod, CustomGUI} ==> r == Ok(NoCommit)
    ensures r.Ok? && r.value.write.Some? ==> r.value.changed
  {
    match k
    case Field => FieldCommit(ft, v, inp, a)
    case Slider => SliderCommit(ft, v, inp.slider, a.min, a.max)
    case Toggle => ToggleCommit(v, inp.toggle)
    case ToggleGroup => ChoiceCommit(ft.enumDecl, inp.choice)
    case PopupList => ChoiceCommit(ft.enumDecl, inp.choice)
    case ToggleMulti => FlagsCommit(ft, v, inp.flags)
    case PopupToggleMulti => FlagsCommit(ft, v, inp.flags)
    case _ => Ok(NoCommit)
  }

  /** The array the buttons leave holds values of the element type. */
  lemma ButtonsTyped(values: seq<Value>, plus: bool, minus: bool, elem: FieldType)
    requires forall j :: 0 <= j < |values| ==> HasType(values[j], elem)
    requires Buttons(values, plus, minus, elem).Ok?
    ensures var vals := Buttons(values, plus, minus, elem).value;
      forall j :: 0 <= j < |vals| ==> HasType(vals[j], elem)
  {
  }

  /** The element loop only stores values of the element type. */
  lemma EditElementsTyped(values: seq<Value>, boxes: seq<TextBox>, elem: FieldType, lo: real, hi: real)
    requires forall j :: 0 <= j < |values| ==> HasType(values[j], elem)
    requires EditElements(values, boxes, Conversion(elem, lo, hi), |values|).Ok?
    ensures var p := EditElements(values, boxes, Conversion(elem, lo, hi), |values|).value;
      forall j :: 0 <= j < |p.0| ==> HasType(p.0[j], elem)
  {
    var convert := Conversion(elem, lo, hi);
    var p := EditElements(values, boxes, convert, |values|).value;
    EditElementsEntries(values, boxes, convert, |values|);
    forall j | 0 <= j < |p.0|
      ensures HasType(p.0[j], elem)
    {
      if BoxAt(boxes, j).Edited? {
        assert EditedElement(BoxAt(boxes, j).text, elem, lo, hi) == Ok(p.0[j]);
      }
    }
  }

  /** An array written back holds values of the element type. */
  lemma ArrayCommitTyped(elem: FieldType, v: Value, inp: FieldInput, lo: real, hi: real)
    requires HasType(v, Arr(elem))
    requires ArrayCommit(elem, v, inp, lo, hi).Ok? && ArrayCommit(elem, v, inp, lo, hi).value.write.Some?
    ensures HasType(ArrayCommit(elem, v, inp, lo, hi).value.write.value, Arr(elem))
  {
    var vals := Buttons(v.elems, inp.plus, inp.minus, elem).value;
    ButtonsTyped(v.elems, inp.plus, inp.minus, elem);
    EditElementsTyped(vals, inp.boxes, elem, lo, hi);
  }

  /** An int vector written back has components that fit an `int`. */
  lemma IntVectorCommitTyped(ft: FieldType, v: Value, boxes: seq<TextBox>)
    requires IntComponents(ft) > 0 && HasType(v, ft)
    requires IntVectorCommit(ft, v, boxes).Ok? && IntVectorCommit(ft, v, boxes).value.write.Some?
    ensures HasType(IntVectorCommit(ft, v, boxes).value.write.value, ft)
  {
    var p := IntMultiField(v.icomps, Labels(ft), boxes).value;
    forall j | 0 <= j < |p.0|
      ensures InIntegralRange(p.0[j], true, W32)
    {
      IntEntryValue(IntText(v.icomps[j], BoxAt(boxes, j)));
    }
  }

  /** The `Field` widget writes only values of the field's type. */
  lemma FieldCommitTyped(ft: FieldType, v: Value, inp: FieldInput, a: DrawAttr)
    requires InFieldTypes(ft) || ft.Arr?
    requires HasType(v, ft)
    requires FieldCommit(ft, v, inp, a).Ok? && FieldCommit(ft, v, inp, a).value.write.Some?
    ensures HasType(FieldCommit(ft, v, inp, a).value.write.value, ft)
  {
    if FloatComponents(ft) > 0 {
    } else if IntComponents(ft) > 0 {
      IntVectorCommitTyped(ft, v, inp.boxes);
    } else if ft.Arr? {
      ArrayCommitTyped(ft.elem, v, inp, a.min, a.max);
    } else {
      assert BoxAt(inp.boxes, 0).Edited?;
    }
  }

  /** Every leaf widget writes only values of the field's type. */
  lemma LeafCommitTyped(k: DrawType, ft: FieldType, v: Value, inp: FieldInput, a: DrawAttr)
    requires k != Field || InFieldTypes(ft) || ft.Arr?
    requires k != Slider || InSliderTypes(ft)
    requires k in {ToggleGroup, PopupList, ToggleMulti, PopupToggleMulti} ==> ft.Enum?
    requires k == Toggle ==> ft == Boolean
    requires HasType(v, ft)
    requires LeafCommit(k, ft, v, inp, a).Ok? && LeafCommit(k, ft, v, inp, a).value.write.Some?
    ensures HasType(LeafCommit(k, ft, v, inp, a).value.write.value, ft)
  {
    if k == Field {
      FieldCommitTyped(ft, v, inp, a);
    }
  }

  /** With no interaction an array keeps its elements and reports no change. */
  lemma ArrayCommitIdle(elem: FieldType, v: Value, lo: real, hi: real)
    requires ArrayCommit(elem, v, Idle, lo, hi).Ok?
    ensures ArrayCommit(elem, v, Idle, lo, hi).value == NoCommit
  {
    if v.VArr? {
      EditElementsEntries(v.elems, Idle.boxes, Conversion(elem, lo, hi), |v.elems|);
    }
  }

  /** With no interaction a float vector keeps its components. */
  lemma FloatVectorCommitIdle(ft: FieldType, v: Value)
    requires FloatComponents(ft) > 0 && HasType(v, ft)
    requires FloatVectorCommit(ft, v, []).Ok?
    ensures FloatVectorCommit(ft, v, []).value == NoCommit
  {
    FloatMultiFieldKept(v.comps, Labels(ft));
  }

  /** An int vector value has one 32-bit component per label. */
  lemma IntVectorFits(ft: FieldType, v: Value)
    requires IntComponents(ft) > 0 && HasType(v, ft)
    ensures v.VVeci? && |v.icomps| == IntComponents(ft) == |Labels(ft)|
    ensures forall j :: 0 <= j < |v.icomps| ==> Int32Min <= v.icomps[j] <= Int32Max
  {
    forall j | 0 <= j < |v.icomps|
      ensures Int32Min <= v.icomps[j] <= Int32Max
    {
      assert InIntegralRange(v.icomps[j], true, W32);
    }
  }

  /** With no interaction an int vector keeps its components. */
  lemma IntVectorCommitIdle(ft: FieldType, v: Value)
    requires IntComponents(ft) > 0 && HasType(v, ft)
    requires IntVectorCommit(ft, v, []).Ok?
    ensures IntVectorCommit(ft, v, []).value == NoCommit
  {
    IntVectorFits(ft, v);
    IntMultiFieldKept(v.icomps, Labels(ft));
  }

  /** With no interaction the `Field` widget changes nothing. */
  lemma FieldCommitIdle(ft: FieldType, v: Value, a: DrawAttr)
    requires InFieldTypes(ft) || ft.Arr?
    requires HasType(v, ft)
    requires FieldCommit(ft, v, Idle, a).Ok?
    ensures FieldCommit(ft, v, Idle, a).value == NoCommit
  {
    if FloatComponents(ft) > 0 {
      FloatVectorCommitIdle(ft, v);
    } else if IntComponents(ft) > 0 {
      IntVectorCommitIdle(ft, v);
    } else if ft.Arr? {
      ArrayCommitIdle(ft.elem, v, a.min, a.max);
    } else {
      assert FieldCommit(ft, v, Idle, a) == ScalarCommit(ft, v, Idle, a.min, a.max);
    }
  }

  /** With no interaction no leaf widget changes its field. */
  lemma LeafCommitIdle(k: DrawType, ft: FieldType, v: Value, a: DrawAttr)
    requires k != Field || InFieldTypes(ft) || ft.Arr?
    requires k != Slider || InSliderTypes(ft)
    requires k in {ToggleGroup, PopupList} ==> ft.Enum?
    requires HasType(v, ft)
    requires LeafCommit(k, ft, v, Idle, a).Ok?
    ensures LeafCommit(k, ft, v, Idle, a).value == NoCommit
  {
    if k == Field {
      FieldCommitIdle(ft, v, a);
    }
  }
}
