/**
 * The render pass of `Draw` over a container and `DrawFields` on top of it:
 * each field is admitted or skipped, drawn as a nested group or as a leaf
 * widget, and written back when its widget reports a change.  The pass records
 * the Hide/Show clicks in the collapsible state, and stops at the first
 * exception it raises.
 */
module Form {
  import opened Wrappers
  import opened Schema
  import opened Eligibility
  import opened Visibility
  import opened Widgets
  import opened MultiField
  import opened Commit
  import opened FieldWidget
  import opened Collapsible

  /** The user's input in one pass, by the path of field indices from the top container. */
  type UserInput = map<seq<nat>, FieldInput>

  /** The input to the field at `path`; fields the user did not touch get none. */
  function InputAt(inp: UserInput, path: seq<nat>): (fi: FieldInput)
    ensures path !in inp ==> fi == Idle
  {
    if path in inp then inp[path] else Idle
  }

  /**
   * What a pass over a container yields: the container as it now is, whether
   * a widget reported a change, the collapsible state, and the exception that
   * stopped the pass if any.
   */
  datatype Outcome = Outcome(value: Value, changed: bool, states: seq<int>, error: Option<Error>)

  /**
   * The pass over container `c` of type `t`, with `handedDown` as the mask
   * unless `t` has its own.  A pass that ends without an exception and reports
   * no change leaves the container as it was.
   */
  function DrawSpec(c: Value, t: TypeDecl, handedDown: bv32, path: seq<nat>, inp: UserInput, states: seq<int>): (r: Outcome)
    ensures r.error.None? && !r.changed ==> r.value == c
    decreases t, 3
  {
    FieldsFrom(t, EffectiveMask(handedDown, t), path, inp, 0, Outcome(c, false, states, None))
  }

  /**
   * The fields from the `i`-th on, after the earlier ones left `acc`.  The pass
   * stops at the first exception; a change once reported stays reported; a
   * pass that ends without an exception or a change has written nothing.
   */
  function FieldsFrom(t: TypeDecl, mask: bv32, path: seq<nat>, inp: UserInput, i: nat, acc: Outcome): (r: Outcome)
    requires i <= |t.fields|
    ensures acc.error.Some? ==> r == acc
    ensures acc.changed ==> r.changed
    ensures r.error.None? ==> acc.error.None?
    ensures r.error.None? && !r.changed ==> r.value == acc.value
    decreases t, 2, |t.fields| - i
  {
    if i == |t.fields| || acc.error.Some? then acc
    else FieldsFrom(t, mask, path, inp, i + 1, StepField(t, mask, path, inp, i, acc))
  }

  /**
   * The `i`-th field: skipped, drawn as a nested group, or drawn as a leaf.  A
   * change once reported stays reported.
   */
  function StepField(t: TypeDecl, mask: bv32, path: seq<nat>, inp: UserInput, i: nat, acc: Outcome): (r: Outcome)
    requires i < |t.fields|
    ensures acc.changed ==> r.changed
    ensures r.error.None? && !r.changed ==> r.value == acc.value
    decreases t, 1
  {
    var f := t.fields[i];
    match Admit(f, acc.value, t, mask)
    case Err(e) => acc.(error := Some(e))
    case Ok(None) => acc
    case Ok(Some(a)) =>
      if f.ftype.Nested? then NestedStep(t, mask, path, inp, i, a, acc)
      else LeafStep(t, i, a, InputAt(inp, path + [i]), acc)
  }

  /**
   * A field the gate skips leaves everything as it was, and an exception of
   * the gate stops the pass with nothing else changed.
   */
  lemma StepFieldGate(t: TypeDecl, mask: bv32, path: seq<nat>, inp: UserInput, i: nat, acc: Outcome)
    requires i < |t.fields|
    ensures var adm := Admit(t.fields[i], acc.value, t, mask);
      (adm == Ok(None) ==> StepField(t, mask, path, inp, i, acc) == acc) &&
      (adm.Err? ==> StepField(t, mask, path, inp, i, acc) == acc.(error := Some(adm.error)))
  {
  }

  /**
   * A field drawn as a nested group: its Hide/Show button toggles the state, a
   * shown group is drawn with the field's own mask, and the group's value is
   * written back when it reports a change.  A `UnityEngine.Object` is shown by
   * name only.  When the group raises, a class keeps what was written into it
   * (the field refers to the same object) while a struct loses it (the group
   * worked on a boxed copy).
   */
  function NestedStep(t: TypeDecl, mask: bv32, path: seq<nat>, inp: UserInput, i: nat, a: DrawAttr, acc: Outcome): (r: Outcome)
    requires i < |t.fields| && t.fields[i].ftype.Nested?
    ensures acc.changed ==> r.changed
    ensures r.error.None? && !r.changed ==> r.value == acc.value
    ensures a.collapsible && t.fields[i].token !in acc.states ==>
      r == acc.(states := if InputAt(inp, path + [i]).collapse then Toggled(acc.states, t.fields[i].token) else acc.states)
    decreases t, 0
  {
    var f := t.fields[i];
    var d := f.ftype.decl;
    var here := path + [i];
    var shown := !a.collapsible || f.token in acc.states;
    var states := if a.collapsible && InputAt(inp, here).collapse then Toggled(acc.states, f.token) else acc.states;
    if !shown then acc.(states := states)
    else
      match GetField(acc.value, i)
      case Err(e) => acc.(states := states, error := Some(e))
      case Ok(v) =>
        if d.unityObject && !v.VNull? then acc.(states := states)
        else
          Merged(acc, i, d.valueType, DrawSpec(v, d, ChildMask(mask, f), here, inp, states))
  }

  /**
   * The container after its `i`-th field, a nested instance, was drawn with
   * outcome `r`: the child is written back when it changed, and also on an
   * error unless it is a value type, whose copy is lost.
   */
  function Merged(acc: Outcome, i: nat, valueType: bool, r: Outcome): (m: Outcome)
    requires acc.value.VObj? && i < |acc.value.fields|
    ensures m.states == r.states
    ensures r.error.Some? ==> m.error == r.error
    ensures acc.error.None? ==> m.error == r.error
    ensures m.changed <==> acc.changed || (r.error.None? && r.changed)
    ensures r.error.Some? && valueType ==> m.value == acc.value
    ensures (r.error.Some? && !valueType) || (r.error.None? && r.changed) ==> m.value == SetField(acc.value, i, r.value)
    ensures r.error.None? && !r.changed ==> m.value == acc.value
  {
    if r.error.Some? then
      Outcome(if valueType then acc.value else SetField(acc.value, i, r.value), acc.changed, r.states, r.error)
    else if r.changed then Outcome(SetField(acc.value, i, r.value), true, r.states, None)
    else acc.(states := r.states)
  }

  /**
   * A leaf field: the widget kind is resolved and checked against the type, the
   * value read, and what the widget commits written back.
   */
  function LeafStep(t: TypeDecl, i: nat, a: DrawAttr, fi: FieldInput, acc: Outcome): (r: Outcome)
    requires i < |t.fields|
    ensures r.states == acc.states
    ensures ResolveKind(a, t.fields[i].ftype, t.name) in {Auto, Ignore} ==> r == acc
    ensures CheckWidget(ResolveKind(a, t.fields[i].ftype, t.name), t.fields[i].ftype, t.name).Some? ==>
      r == acc.(error := CheckWidget(ResolveKind(a, t.fields[i].ftype, t.name), t.fields[i].ftype, t.name))
    ensures r.error.None? && !r.changed ==> r.value == acc.value
    ensures acc.changed ==> r.changed
  {
    var ft := t.fields[i].ftype;
    var k := ResolveKind(a, ft, t.name);
    if k in {Auto, Ignore} then acc
    else match CheckWidget(k, ft, t.name)
      case Some(e) => acc.(error := Some(e))
      case None =>
        (match GetField(acc.value, i)
         case Err(e) => acc.(error := Some(e))
         case Ok(v) =>
           (match LeafCommit(k, ft, v, fi, a)
            case Err(e) => acc.(error := Some(e))
            case Ok(cm) =>
              Outcome(if cm.write.Some? then SetField(acc.value, i, cm.write.value) else acc.value,
                      acc.changed || cm.changed, acc.states, None)))
  }

  /*
   * A pass keeps the container well typed and the collapsible state free of
   * duplicates, also when it stops at an exception.
   */

  /** The outcome fits the type `t`: a well-typed container (or null) and a duplicate-free state. */
  predicate Fits(o: Outcome, t: TypeDecl) {
    HasType(o.value, Nested(t)) && NoDup(o.states)
  }

  /** Writing a value of the field's type keeps the container an instance. */
  lemma SetFieldTyped(c: Value, t: TypeDecl, i: nat, v: Value)
    requires HasType(c, Nested(t)) && c.VObj? && i < |t.fields| && HasType(v, t.fields[i].ftype)
    ensures HasType(SetField(c, i, v), Nested(t))
  {
    var r := SetField(c, i, v);
    forall j | 0 <= j < |t.fields|
      ensures HasType(r.fields[j], t.fields[j].ftype)
    {
      if j != i {
        assert r.fields[j] == c.fields[j];
      }
    }
  }

  lemma LeafStepFits(t: TypeDecl, i: nat, a: DrawAttr, fi: FieldInput, acc: Outcome)
    requires i < |t.fields| && Fits(acc, t)
    ensures Fits(LeafStep(t, i, a, fi, acc), t)
  {
    var ft := t.fields[i].ftype;
    var k := ResolveKind(a, ft, t.name);
    if k !in {Auto, Ignore} && CheckWidget(k, ft, t.name).None? && GetField(acc.value, i).Ok? {
      var v := acc.value.fields[i];
      var cm := LeafCommit(k, ft, v, fi, a);
      if cm.Ok? && cm.value.write.Some? {
        LeafCommitTyped(k, ft, v, fi, a);
        SetFieldTyped(acc.value, t, i, cm.value.write.value);
      }
    }
  }

  lemma NestedStepFits(t: TypeDecl, mask: bv32, path: seq<nat>, inp: UserInput, i: nat, a: DrawAttr, acc: Outcome)
    requires i < |t.fields| && t.fields[i].ftype.Nested? && Fits(acc, t)
    ensures Fits(NestedStep(t, mask, path, inp, i, a, acc), t)
    decreases t, 0
  {
    var f := t.fields[i];
    var d := f.ftype.decl;
    var here := path + [i];
    var states := if a.collapsible && InputAt(inp, here).collapse then Toggled(acc.states, f.token) else acc.states;
    if a.collapsible && InputAt(inp, here).collapse {
      ToggledNoDup(acc.states, f.token);
    }
    if (!a.collapsible || f.token in acc.states) && GetField(acc.value, i).Ok? {
      var v := acc.value.fields[i];
      if !(d.unityObject && !v.VNull?) {
        assert HasType(v, Nested(d));
        DrawSpecFits(v, d, ChildMask(mask, f), here, inp, states);
        MergedFits(t, i, acc, d.valueType, DrawSpec(v, d, ChildMask(mask, f), here, inp, states));
      }
    }
  }

  /** Merging a child of the field's type keeps the container an instance. */
  lemma MergedFits(t: TypeDecl, i: nat, acc: Outcome, valueType: bool, r: Outcome)
    requires Fits(acc, t) && acc.value.VObj? && i < |acc.value.fields| && i < |t.fields|
    requires HasType(r.value, t.fields[i].ftype) && NoDup(r.states)
    ensures Fits(Merged(acc, i, valueType, r), t)
  {
    SetFieldTyped(acc.value, t, i, r.value);
  }

  lemma StepFieldFits(t: TypeDecl, mask: bv32, path: seq<nat>, inp: UserInput, i: nat, acc: Outcome)
    requires i < |t.fields| && Fits(acc, t)
    ensures Fits(StepField(t, mask, path, inp, i, acc), t)
    decreases t, 1
  {
    var f := t.fields[i];
    var adm := Admit(f, acc.value, t, mask);
    if adm.Ok? && adm.value.Some? {
      if f.ftype.Nested? {
        NestedStepFits(t, mask, path, inp, i, adm.value.value, acc);
      } else {
        LeafStepFits(t, i, adm.value.value, InputAt(inp, path + [i]), acc);
      }
    }
  }

  lemma FieldsFromFits(t: TypeDecl, mask: bv32, path: seq<nat>, inp: UserInput, i: nat, acc: Outcome)
    requires i <= |t.fields| && Fits(acc, t)
    ensures Fits(FieldsFrom(t, mask, path, inp, i, acc), t)
    decreases t, 2, |t.fields| - i
  {
    if i < |t.fields| && acc.error.None? {
      StepFieldFits(t, mask, path, inp, i, acc);
      FieldsFromFits(t, mask, path, inp, i + 1, StepField(t, mask, path, inp, i, acc));
    }
  }

  /** A pass keeps every field's value of its declared type and the state free of duplicates. */
  lemma DrawSpecFits(c: Value, t: TypeDecl, handedDown: bv32, path: seq<nat>, inp: UserInput, states: seq<int>)
    requires HasType(c, Nested(t)) && NoDup(states)
    ensures Fits(DrawSpec(c, t, handedDown, path, inp, states), t)
    decreases t, 3
  {
    FieldsFromFits(t, EffectiveMask(handedDown, t), path, inp, 0, Outcome(c, false, states, None));
  }

  /*
   * A pass without any interaction changes nothing.
   */

  lemma LeafStepIdle(t: TypeDecl, i: nat, a: DrawAttr, acc: Outcome)
    requires i < |t.fields| && HasType(acc.value, Nested(t))
    ensures var r := LeafStep(t, i, a, Idle, acc);
      r.value == acc.value && r.changed == acc.changed && r.states == acc.states
  {
    var ft := t.fields[i].ftype;
    var k := ResolveKind(a, ft, t.name);
    if k !in {Auto, Ignore} && CheckWidget(k, ft, t.name).None? && GetField(acc.value, i).Ok? {
      var v := acc.value.fields[i];
      if LeafCommit(k, ft, v, Idle, a).Ok? {
        LeafCommitIdle(k, ft, v, a);
      }
    }
  }

  lemma NestedStepIdle(t: TypeDecl, mask: bv32, path: seq<nat>, i: nat, a: DrawAttr, acc: Outcome)
    requires i < |t.fields| && t.fields[i].ftype.Nested? && HasType(acc.value, Nested(t))
    ensures var r := NestedStep(t, mask, path, map[], i, a, acc);
      r.value == acc.value && r.changed == acc.changed && r.states == acc.states
    decreases t, 0
  {
    var f := t.fields[i];
    var d := f.ftype.decl;
    if (!a.collapsible || f.token in acc.states) && GetField(acc.value, i).Ok? {
      var v := acc.value.fields[i];
      if !(d.unityObject && !v.VNull?) {
        DrawSpecIdle(v, d, ChildMask(mask, f), path + [i], acc.states);
        assert acc.value.(fields := acc.value.fields[i := v]) == acc.value;
      }
    }
  }

  lemma StepFieldIdle(t: TypeDecl, mask: bv32, path: seq<nat>, i: nat, acc: Outcome)
    requires i < |t.fields| && HasType(acc.value, Nested(t))
    ensures var r := StepField(t, mask, path, map[], i, acc);
      r.value == acc.value && r.changed == acc.changed && r.states == acc.states
    decreases t, 1
  {
    var f := t.fields[i];
    var adm := Admit(f, acc.value, t, mask);
    if adm.Ok? && adm.value.Some? {
      if f.ftype.Nested? {
        NestedStepIdle(t, mask, path, i, adm.value.value, acc);
      } else {
        LeafStepIdle(t, i, adm.value.value, acc);
      }
    }
  }

  lemma FieldsFromIdle(t: TypeDecl, mask: bv32, path: seq<nat>, i: nat, acc: Outcome)
    requires i <= |t.fields| && HasType(acc.value, Nested(t))
    ensures var r := FieldsFrom(t, mask, path, map[], i, acc);
      r.value == acc.value && r.changed == acc.changed && r.states == acc.states
    decreases t, 2, |t.fields| - i
  {
    if i < |t.fields| && acc.error.None? {
      StepFieldIdle(t, mask, path, i, acc);
      FieldsFromIdle(t, mask, path, i + 1, StepField(t, mask, path, map[], i, acc));
    }
  }

  /**
   * With no interaction at all a pass over a well-typed container changes
   * nothing and reports no change, whether or not it raises.  This rests on
   * `CustomGUI` fields committing nothing in the pass: the delegate is not
   * invoked in this model.
   */
  lemma DrawSpecIdle(c: Value, t: TypeDecl, handedDown: bv32, path: seq<nat>, states: seq<int>)
    requires HasType(c, Nested(t))
    ensures var r := DrawSpec(c, t, handedDown, path, map[], states);
      r.value == c && !r.changed && r.states == states
    decreases t, 3
  {
    FieldsFromIdle(t, EffectiveMask(handedDown, t), path, 0, Outcome(c, false, states, None));
  }

  /*
   * Under `OnlyDrawAttr` a field needs a `Draw` attribute to be drawn.
   */

  lemma {:induction false} FieldsFromOnlyDrawAttr(t: TypeDecl, path: seq<nat>, inp: UserInput, i: nat, acc: Outcome)
    requires i <= |t.fields|
    requires forall j :: 0 <= j < |t.fields| ==> t.fields[j].draw.None?
    ensures FieldsFrom(t, OnlyDrawAttr, path, inp, i, acc) == acc
    decreases |t.fields| - i
  {
    if i < |t.fields| && acc.error.None? {
      assert !Eligible(OnlyDrawAttr, t.fields[i]);
      assert StepField(t, OnlyDrawAttr, path, inp, i, acc) == acc;
      FieldsFromOnlyDrawAttr(t, path, inp, i + 1, acc);
    }
  }

  /** A type none of whose fields has a `Draw` attribute draws nothing under `OnlyDrawAttr`. */
  lemma OnlyDrawAttrDrawsNothing(c: Value, t: TypeDecl, path: seq<nat>, inp: UserInput, states: seq<int>)
    requires t.drawFields.None?
    requires forall j :: 0 <= j < |t.fields| ==> t.fields[j].draw.None?
    ensures DrawSpec(c, t, OnlyDrawAttr, path, inp, states) == Outcome(c, false, states, None)
  {
    FieldsFromOnlyDrawAttr(t, path, inp, 0, Outcome(c, false, states, None));
  }

  /*
   * `DrawFields`: the pass over the caller's container, and the `onChange` notification.
   */

  /**
   * What `DrawFields` leaves: the caller's container, the collapsible state,
   * whether `onChange` was invoked and whether an exception it threw was
   * logged, and the exception that escapes the pass if any.
   */
  datatype FormResult = FormResult(container: Value, states: seq<int>, notified: bool, logged: bool, error: Option<Error>)

  /**
   * The container is replaced by the drawn one only when the pass reports a
   * change; `onChange` is then invoked, and an exception it throws is logged
   * and goes no further.  An exception of the pass itself escapes: a class
   * container keeps what was written into it, a struct the caller holds keeps
   * its old value.
   */
  function DrawFieldsSpec(c: Value, t: TypeDecl, defaultMask: bv32, inp: UserInput, states: seq<int>,
                          hasOnChange: bool, callbackThrows: bool): (r: FormResult)
    ensures var o := DrawSpec(c, t, defaultMask, [], inp, states);
      && r.states == o.states
      && r.error == o.error
      && (r.notified <==> hasOnChange && o.error.None? && o.changed)
      && (r.logged <==> r.notified && callbackThrows)
      && (o.error.None? ==> r.container == o.value)
      && (o.error.Some? ==> r.container == if t.valueType then c else o.value)
  {
    var o := DrawSpec(c, t, defaultMask, [], inp, states);
    if o.error.Some? then FormResult(if t.valueType then c else o.value, o.states, false, false, o.error)
    else if o.changed then FormResult(o.value, o.states, hasOnChange, hasOnChange && callbackThrows, None)
    else FormResult(c, o.states, false, false, None)
  }

  /**
   * Without any interaction `DrawFields` leaves the container alone and never
   * invokes `onChange`; as for `DrawSpecIdle`, `CustomGUI` delegates are not
   * invoked in this model.
   */
  lemma DrawFieldsIdle(c: Value, t: TypeDecl, defaultMask: bv32, states: seq<int>, hasOnChange: bool, callbackThrows: bool)
    requires HasType(c, Nested(t))
    ensures var r := DrawFieldsSpec(c, t, defaultMask, map[], states, hasOnChange, callbackThrows);
      r.container == c && r.states == states && !r.notified && !r.logged
  {
    DrawSpecIdle(c, t, defaultMask, [], states);
  }

  /** `DrawFields` keeps the caller's container well typed and the state free of duplicates. */
  lemma DrawFieldsFits(c: Value, t: TypeDecl, defaultMask: bv32, inp: UserInput, states: seq<int>, hasOnChange: bool, callbackThrows: bool)
    requires HasType(c, Nested(t)) && NoDup(states)
    ensures var r := DrawFieldsSpec(c, t, defaultMask, inp, states, hasOnChange, callbackThrows);
      HasType(r.container, Nested(t)) && NoDup(r.states)
  {
    DrawSpecFits(c, t, defaultMask, [], inp, states);
  }

  /*
   * The pass as the program runs it: a loop over the fields that stops at the
   * first exception, with the collapsible state changed in place.
   */

  /** One turn of the field loop, as `FieldsFrom` takes it. */
  lemma FieldsFromStep(t: TypeDecl, mask: bv32, path: seq<nat>, inp: UserInput, i: nat, acc: Outcome, r: Outcome, goal: Outcome)
    requires i < |t.fields| && acc.error.None?
    requires FieldsFrom(t, mask, path, inp, i, acc) == goal
    requires r == StepField(t, mask, path, inp, i, acc)
    ensures r.error.Some? ==> r == goal
    ensures r.error.None? ==> FieldsFrom(t, mask, path, inp, i + 1, r) == goal
  {
  }

  /** The field loop after the last field. */
  lemma FieldsFromEnd(t: TypeDecl, mask: bv32, path: seq<nat>, inp: UserInput, i: nat, acc: Outcome)
    requires i == |t.fields|
    ensures FieldsFrom(t, mask, path, inp, i, acc) == acc
  {
  }

  /** `Draw(container, type, …)`. */
  method Draw(c: Value, t: TypeDecl, handedDown: bv32, path: seq<nat>, inp: UserInput, cs: CollapsibleStates) returns (o: Outcome)
    modifies cs
    ensures o == DrawSpec(c, t, handedDown, path, inp, old(cs.tokens))
    ensures cs.tokens == o.states
    decreases t, 3
  {
    ghost var goal := DrawSpec(c, t, handedDown, path, inp, cs.tokens);
    var mask := EffectiveMask(handedDown, t);
    var acc := Outcome(c, false, cs.tokens, None);
    var i := 0;
    while i < |t.fields|
      invariant 0 <= i <= |t.fields|
      invariant acc.error.None? && acc.states == cs.tokens
      invariant FieldsFrom(t, mask, path, inp, i, acc) == goal
      decreases |t.fields| - i
    {
      var r := DrawField(t, mask, path, inp, i, acc, cs);
      FieldsFromStep(t, mask, path, inp, i, acc, r, goal);
      if r.error.Some? {
        return r;
      }
      acc := r;
      i := i + 1;
    }
    FieldsFromEnd(t, mask, path, inp, i, acc);
    o := acc;
  }

  /** One field of the loop. */
  method DrawField(t: TypeDecl, mask: bv32, path: seq<nat>, inp: UserInput, i: nat, acc: Outcome, cs: CollapsibleStates)
    returns (o: Outcome)
    requires i < |t.fields| && acc.error.None? && acc.states == cs.tokens
    modifies cs
    ensures o == StepField(t, mask, path, inp, i, acc)
    ensures cs.tokens == o.states
    decreases t, 1
  {
    var container, changed := acc.value, acc.changed;
    var f := t.fields[i];
    var adm := Admit(f, container, t, mask);
    if adm.Err? {
      return Outcome(container, changed, cs.tokens, Some(adm.error));
    }
    if adm.value.None? {
      return Outcome(container, changed, cs.tokens, None);
    }
    var a := adm.value.value;
    if f.ftype.Nested? {
      o := DrawNested(t, mask, path, inp, i, a, container, changed, cs);
    } else {
      o := DrawLeaf(t, i, a, InputAt(inp, path + [i]), Outcome(container, changed, cs.tokens, None));
    }
  }

  /**
   * A field drawn by a widget of its own; the text entries of a number, a
   * string or an array are edited through the in-place `object[]`.
   */
  method DrawLeaf(t: TypeDecl, i: nat, a: DrawAttr, fi: FieldInput, acc: Outcome) returns (r: Outcome)
    requires i < |t.fields|
    ensures r == LeafStep(t, i, a, fi, acc)
  {
    var ft := t.fields[i].ftype;
    var k := ResolveKind(a, ft, t.name);
    if k in {Auto, Ignore} {
      return acc;
    }
    var bad := CheckWidget(k, ft, t.name);
    if bad.Some? {
      return acc.(error := bad);
    }
    var got := GetField(acc.value, i);
    if got.Err? {
      return acc.(error := Some(got.error));
    }
    var cm: Result<Commit, Error>;
    if k == Field && FloatComponents(ft) == 0 && IntComponents(ft) == 0 {
      cm := DrawTextEntries(ft, got.value, fi, a.min, a.max);
    } else {
      cm := LeafCommit(k, ft, got.value, fi, a);
    }
    if cm.Err? {
      return acc.(error := Some(cm.error));
    }
    var written := if cm.value.write.Some? then SetField(acc.value, i, cm.value.write.value) else acc.value;
    r := Outcome(written, acc.changed || cm.value.changed, acc.states, None);
  }

  /** A nested group, with its Hide/Show button. */
  method DrawNested(t: TypeDecl, mask: bv32, path: seq<nat>, inp: UserInput, i: nat, a: DrawAttr, container: Value, changed: bool,
                    cs: CollapsibleStates) returns (o: Outcome)
    requires i < |t.fields| && t.fields[i].ftype.Nested?
    modifies cs
    ensures o == NestedStep(t, mask, path, inp, i, a, Outcome(container, changed, old(cs.tokens), None))
    ensures cs.tokens == o.states
    decreases t, 0
  {
    var f := t.fields[i];
    var d := f.ftype.decl;
    var here := path + [i];
    var visible := true;
    if a.collapsible {
      visible := cs.Shown(f.token);
      if InputAt(inp, here).collapse {
        var wasShown := cs.Toggle(f.token);
      }
    }
    if !visible {
      return Outcome(container, changed, cs.tokens, None);
    }
    var got := GetField(container, i);
    if got.Err? {
      return Outcome(container, changed, cs.tokens, Some(got.error));
    }
    var v := got.value;
    if d.unityObject && !v.VNull? {
      return Outcome(container, changed, cs.tokens, None);
    }
    var r := Draw(v, d, ChildMask(mask, f), here, inp, cs);
    if r.error.Some? {
      var back := if d.valueType then container else SetField(container, i, r.value);
      return Outcome(back, changed, cs.tokens, r.error);
    }
    if r.changed {
      return Outcome(SetField(container, i, r.value), true, cs.tokens, None);
    }
    o := Outcome(container, changed, cs.tokens, None);
  }

  /** `DrawFields(ref container, …, onChange)`. */
  method DrawFields(c: Value, t: TypeDecl, defaultMask: bv32, inp: UserInput, cs: CollapsibleStates,
                    hasOnChange: bool, callbackThrows: bool) returns (r: FormResult)
    modifies cs
    ensures r == DrawFieldsSpec(c, t, defaultMask, inp, old(cs.tokens), hasOnChange, callbackThrows)
    ensures cs.tokens == r.states
  {
    var o := Draw(c, t, defaultMask, [], inp, cs);
    if o.error.Some? {
      var left := if t.valueType then c else o.value;
      return FormResult(left, cs.tokens, false, false, o.error);
    }
    var container := c;
    var notified, logged := false, false;
    if o.changed {
      container := o.value;
      if hasOnChange {
        notified := true;
        if callbackThrows {
          logged := true;
        }
      }
    }
    r := FormResult(container, cs.tokens, notified, logged, None);
  }

  /** The `Draw(mod)` extension on a drawable class instance: `OnlyDrawAttr`, with its own `OnChange`. */
  method DrawInstance(c: Value, t: TypeDecl, inp: UserInput, cs: CollapsibleStates, callbackThrows: bool) returns (r: FormResult)
    requires !t.valueType
    modifies cs
    ensures r == DrawFieldsSpec(c, t, OnlyDrawAttr, inp, old(cs.tokens), true, callbackThrows)
    ensures cs.tokens == r.states
  {
    r := DrawFields(c, t, OnlyDrawAttr, inp, cs, true, callbackThrows);
  }
}
