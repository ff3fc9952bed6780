/**
 * The `Field` widget on a scalar or an array as the program runs it: the
 * values are copied into an `object[]`, the "+" and "-" buttons resize it,
 * and a loop over the entries stores each edited one in place.
 */
module FieldWidget {
  import opened Wrappers
  import opened Schema
  import opened MultiField
  import opened Commit

  /** `Array.Resize`: a new array of length `n` with the old elements, padded with nulls. */
  method Resize(a: array<Value>, n: nat) returns (b: array<Value>)
    ensures fresh(b) && b.Length == n
    ensures n <= a.Length ==> b[..] == a[..n]
    ensures n > a.Length ==> b[..] == a[..] + seq(n - a.Length, j => VNull)
  {
    b := new Value[n](j => VNull);
    var i := 0;
    while i < n && i < a.Length
      invariant 0 <= i <= n && i <= a.Length
      invariant forall j :: 0 <= j < i ==> b[j] == a[j]
      invariant forall j :: i <= j < n ==> b[j] == VNull
    {
      b[i] := a[i];
      i := i + 1;
    }
    if n <= a.Length {
      assert b[..] == a[..n];
    } else {
      assert b[..] == a[..] + seq(n - a.Length, j => VNull);
    }
  }

  /** Once the element loop has raised, looking at more entries does not change the outcome. */
  lemma {:induction false} EditElementsStops(values: seq<Value>, boxes: seq<TextBox>, convert: string -> Result<Value, Error>, n: nat, m: nat)
    requires n <= m <= |values|
    requires EditElements(values, boxes, convert, n).Err?
    ensures EditElements(values, boxes, convert, m) == EditElements(values, boxes, convert, n)
    decreases m - n
  {
    if n < m {
      EditElementsStops(values, boxes, convert, n, m - 1);
    }
  }

  /** The loop over the entries, storing the conversion of each edited one in place. */
  method EditInPlace(values: array<Value>, boxes: seq<TextBox>, convert: string -> Result<Value, Error>) returns (r: Result<bool, Error>)
    modifies values
    ensures var spec := EditElements(old(values[..]), boxes, convert, values.Length);
      (r.Err? <==> spec.Err?) && (r.Err? ==> r.error == spec.error) &&
      (r.Ok? ==> values[..] == spec.value.0 && r.value == spec.value.1)
  {
    ghost var start := values[..];
    var edited := false;
    var i := 0;
    while i < values.Length
      invariant 0 <= i <= values.Length
      invariant EditElements(start, boxes, convert, i) == Ok((values[..], edited))
    {
      assert values[i] == start[i];
      if values[i] == VNull {
        EditElementsStops(start, boxes, convert, i + 1, values.Length);
        return Err(NullReference);
      }
      match BoxAt(boxes, i) {
        case Kept =>
        case Edited(s) =>
          var x := convert(s);
          if x.Err? {
            EditElementsStops(start, boxes, convert, i + 1, values.Length);
            return Err(x.error);
          }
          values[i] := x.value;
          edited := true;
      }
      i := i + 1;
    }
    r := Ok(edited);
  }

  /**
   * The `Field` widget on an array (`isArray`) or on a single number or string:
   * the buttons of an array first, then every entry.
   */
  method DrawTextEntries(ft: FieldType, v: Value, inp: FieldInput, lo: real, hi: real) returns (r: Result<Commit, Error>)
    requires FloatComponents(ft) == 0 && IntComponents(ft) == 0
    ensures ft.Arr? ==> r == ArrayCommit(ft.elem, v, inp, lo, hi)
    ensures !ft.Arr? ==> r == ScalarCommit(ft, v, inp, lo, hi)
  {
    var values: array<Value>;
    var elem: FieldType;
    if ft.Arr? {
      if v.VNull? {
        return Ok(NoCommit);
      }
      if !v.VArr? {
        return Err(InvalidCast);
      }
      values := new Value[|v.elems|](j requires 0 <= j < |v.elems| => v.elems[j]);
      assert values[..] == v.elems;
      elem := ft.elem;
    } else {
      if v.VNull? {
        return Err(NullReference);
      }
      values := new Value[1](j => v);
      assert values[..] == [v];
      elem := ft;
    }
    var changed := false;
    if ft.Arr? {
      ghost var grown := v.elems;
      if inp.plus {
        var zero := ZeroElement(elem);
        if zero.Err? {
          return Err(zero.error);
        }
        values := Resize(values, values.Length + 1);
        values[values.Length - 1] := zero.value;
        grown := v.elems + [zero.value];
        assert values[..] == grown;
        changed := true;
      }
      if inp.minus {
        values := Resize(values, if values.Length - 1 > 0 then values.Length - 1 else 0);
        assert values[..] == grown[..if |grown| - 1 > 0 then |grown| - 1 else 0];
        changed := true;
      }
      assert Buttons(v.elems, inp.plus, inp.minus, elem) == Ok(values[..]);
    }
    var edited := EditInPlace(values, inp.boxes, Conversion(elem, lo, hi));
    if edited.Err? {
      return Err(edited.error);
    }
    changed := changed || edited.value;
    if !ft.Arr? {
      r := Ok(Commit(changed, if changed then Some(values[0]) else None));
    } else {
      r := Ok(Commit(changed, if changed && WrittenBack(elem) then Some(VArr(values[..])) else None));
    }
  }
}
