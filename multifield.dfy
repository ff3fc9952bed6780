/**
 * `DrawFloatMultiField` and `DrawIntMultiField`: one text field per component,
 * each read back with empty or unparsable text counting as 0, and a flag that
 * tells whether any component differs from its old value.
 */
module MultiField {
  import opened Wrappers
  import opened Text
  import opened Schema

  /**
   * What a text field hands back in this pass: `Kept` when it returns the text
   * it displayed, `Edited(text)` when it returns other text the user typed.
   */
  datatype TextBox = Kept | Edited(text: string)

  /** The answer of the `i`-th text field; fields the input does not mention are kept. */
  function BoxAt(boxes: seq<TextBox>, i: nat): TextBox {
    if i < |boxes| then boxes[i] else Kept
  }

  /** The argument checks both parsers make before drawing anything. */
  function CheckArgs(values: nat, labels: nat): (e: Option<Error>)
    ensures e.None? <==> values > 0 && labels > 0 && values == labels
    ensures values == 0 ==> e == Some(ArgumentNull("values"))
    ensures values > 0 && labels == 0 ==> e == Some(ArgumentNull("labels"))
    ensures values > 0 && labels > 0 && values != labels ==> e == Some(ArgumentOutOfRange("labels"))
  {
    if values == 0 then Some(ArgumentNull("values"))
    else if labels == 0 then Some(ArgumentNull("labels"))
    else if values != labels then Some(ArgumentOutOfRange("labels"))
    else None
  }

  /** The text an int field returns: the old value printed by `ToString()`, or the typed text. */
  function IntText(prev: int, b: TextBox): string {
    match b
    case Kept => IntToString(prev)
    case Edited(s) => s
  }

  /** An int entry read back: empty or unparsable text is 0. */
  function IntEntry(str: string): int {
    if str == "" then 0 else ParseInt32(str).GetOr(0)
  }

  /** A float entry read back: the old value when kept, else the typed text with 0 for empty or unparsable text. */
  function FloatEntry(prev: real, b: TextBox): real {
    match b
    case Kept => prev
    case Edited(s) => if s == "" then 0.0 else ParseDecimal(s).GetOr(0.0)
  }

  /** An int entry is the 32-bit number the text spells, and 0 for empty, unparsable or out-of-range text. */
  lemma IntEntryValue(str: string)
    ensures Int32Min <= IntEntry(str) <= Int32Max
    ensures ParseInt32(str).Some? ==> IntEntry(str) == ParseInt32(str).value
    ensures ParseInt32(str).None? ==> IntEntry(str) == 0
  {
  }

  /** A float entry is the old value when kept, else the number typed, with 0 for empty or unparsable text. */
  lemma FloatEntryValue(prev: real, b: TextBox)
    ensures b.Kept? ==> FloatEntry(prev, b) == prev
    ensures b.Edited? && ParseDecimal(b.text).Some? ==> FloatEntry(prev, b) == ParseDecimal(b.text).value
    ensures b.Edited? && ParseDecimal(b.text).None? ==> FloatEntry(prev, b) == 0.0
  {
  }

  /**
   * One pass over the components: each is read back from its text field by
   * `entry`, and the flag says whether any differs from its old value.
   */
  function ReadBack<T(==)>(values: seq<T>, labels: seq<string>, boxes: seq<TextBox>, entry: (T, TextBox) -> T): (r: Result<(seq<T>, bool), Error>)
    ensures r.Err? <==> CheckArgs(|values|, |labels|).Some?
    ensures r.Err? ==> r.error == CheckArgs(|values|, |labels|).value
    ensures r.Ok? ==> |r.value.0| == |values|
    ensures r.Ok? ==> forall i :: 0 <= i < |values| ==> r.value.0[i] == entry(values[i], BoxAt(boxes, i))
    ensures r.Ok? ==> (r.value.1 <==> exists i :: 0 <= i < |values| && r.value.0[i] != values[i])
  {
    match CheckArgs(|values|, |labels|)
    case Some(e) => Err(e)
    case None =>
      var res := seq(|values|, i requires 0 <= i < |values| => entry(values[i], BoxAt(boxes, i)));
      Ok((res, res != values))
  }

  /** How an int component is read back. */
  function IntRead(): (f: (int, TextBox) -> int)
    ensures forall v, b :: f(v, b) == IntEntry(IntText(v, b))
  {
    (v, b) => IntEntry(IntText(v, b))
  }

  /** How a float component is read back. */
  function FloatRead(): (f: (real, TextBox) -> real)
    ensures forall v, b :: f(v, b) == FloatEntry(v, b)
  {
    (v, b) => FloatEntry(v, b)
  }

  /** The outcome of `DrawIntMultiField`: the new components and whether any changed. */
  function IntMultiField(values: seq<int>, labels: seq<string>, boxes: seq<TextBox>): (r: Result<(seq<int>, bool), Error>)
    ensures r.Err? <==> CheckArgs(|values|, |labels|).Some?
    ensures r.Err? ==> r.error == CheckArgs(|values|, |labels|).value
    ensures r.Ok? ==> |r.value.0| == |values|
    ensures r.Ok? ==> forall i :: 0 <= i < |values| ==> r.value.0[i] == IntEntry(IntText(values[i], BoxAt(boxes, i)))
    ensures r.Ok? ==> (r.value.1 <==> exists i :: 0 <= i < |values| && r.value.0[i] != values[i])
  {
    ReadBack(values, labels, boxes, IntRead())
  }

  /** The outcome of `DrawFloatMultiField`. */
  function FloatMultiField(values: seq<real>, labels: seq<string>, boxes: seq<TextBox>): (r: Result<(seq<real>, bool), Error>)
    ensures r.Err? <==> CheckArgs(|values|, |labels|).Some?
    ensures r.Err? ==> r.error == CheckArgs(|values|, |labels|).value
    ensures r.Ok? ==> |r.value.0| == |values|
    ensures r.Ok? ==> forall i :: 0 <= i < |values| ==> r.value.0[i] == FloatEntry(values[i], BoxAt(boxes, i))
    ensures r.Ok? ==> (r.value.1 <==> exists i :: 0 <= i < |values| && r.value.0[i] != values[i])
  {
    ReadBack(values, labels, boxes, FloatRead())
  }

  /**
   * The loop both parsers run: fill a fresh result array one component at a
   * time, raising `changed` on a difference.
   */
  method DrawMultiField<T(==)>(values: seq<T>, labels: seq<string>, boxes: seq<TextBox>, entry: (T, TextBox) -> T)
    returns (r: Result<(seq<T>, bool), Error>)
    ensures r == ReadBack(values, labels, boxes, entry)
  {
    var e := CheckArgs(|values|, |labels|);
    if e.Some? {
      return Err(e.value);
    }
    var changed := false;
    var result := new T[|values|](j requires 0 <= j < |values| => values[j]);
    var i := 0;
    while i < |values|
      invariant 0 <= i <= |values|
      invariant forall j :: 0 <= j < i ==> result[j] == entry(values[j], BoxAt(boxes, j))
      invariant changed <==> exists j :: 0 <= j < i && result[j] != values[j]
    {
      var x := entry(values[i], BoxAt(boxes, i));
      result[i] := x;
      if x != values[i] {
        changed := true;
      }
      i := i + 1;
    }
    var spec := ReadBack(values, labels, boxes, entry);
    assert result[..] == spec.value.0;
    if !changed {
      assert result[..] == values;
    }
    r := Ok((result[..], changed));
  }

  method DrawIntMultiField(values: seq<int>, labels: seq<string>, boxes: seq<TextBox>) returns (r: Result<(seq<int>, bool), Error>)
    ensures r == IntMultiField(values, labels, boxes)
  {
    r := DrawMultiField(values, labels, boxes, IntRead());
  }

  method DrawFloatMultiField(values: seq<real>, labels: seq<string>, boxes: seq<TextBox>) returns (r: Result<(seq<real>, bool), Error>)
    ensures r == FloatMultiField(values, labels, boxes)
  {
    r := DrawMultiField(values, labels, boxes, FloatRead());
  }

  /** An untouched int field reads back its own printed value. */
  lemma KeptIntEntry(v: int)
    requires Int32Min <= v <= Int32Max
    ensures IntEntry(IntText(v, Kept)) == v
  {
    ParseIntegerOfIntToString(v);
  }

  /** Untouched int fields read back their own printed values: nothing changes. */
  lemma {:induction false} IntMultiFieldKept(values: seq<int>, labels: seq<string>)
    requires |values| > 0 && |values| == |labels|
    requires forall i :: 0 <= i < |values| ==> Int32Min <= values[i] <= Int32Max
    ensures IntMultiField(values, labels, []) == Ok((values, false))
  {
    var r := IntMultiField(values, labels, []);
    forall i | 0 <= i < |values|
      ensures r.value.0[i] == values[i]
    {
      assert BoxAt([], i) == Kept;
      KeptIntEntry(values[i]);
    }
    assert r.value.0 == values;
  }

  /** Untouched float fields read back their old values: nothing changes. */
  lemma FloatMultiFieldKept(values: seq<real>, labels: seq<string>)
    requires |values| > 0 && |values| == |labels|
    ensures FloatMultiField(values, labels, []) == Ok((values, false))
  {
    var r := FloatMultiField(values, labels, []);
    assert r.value.0 == values;
  }

  /** Editing one component changes at most that component, and the flag says whether it did. */
  lemma IntMultiFieldSingleEdit(values: seq<int>, labels: seq<string>, k: nat, s: string)
    requires |values| > 0 && |values| == |labels| && k < |values|
    requires forall i :: 0 <= i < |values| ==> Int32Min <= values[i] <= Int32Max
    ensures var boxes := seq(|values|, i requires 0 <= i < |values| => if i == k then Edited(s) else Kept);
      var r := IntMultiField(values, labels, boxes);
      r.Ok? && r.value.0 == values[k := IntEntry(s)] && (r.value.1 <==> IntEntry(s) != values[k])
  {
    var boxes := seq(|values|, i requires 0 <= i < |values| => if i == k then Edited(s) else Kept);
    var r := IntMultiField(values, labels, boxes);
    forall i | 0 <= i < |values| && i != k
      ensures r.value.0[i] == values[i]
    {
      assert BoxAt(boxes, i) == Kept;
      KeptIntEntry(values[i]);
    }
    assert r.value.0 == values[k := IntEntry(s)];
  }
}
