/**
 * Which fields without an explicit `Draw` attribute take part in the form, as
 * decided by the `DrawFieldMask` in force, and how a `[Range]` attribute turns
 * such a field into a slider.
 */
module Eligibility {
  import opened Wrappers
  import opened Schema

  /** The `DrawFieldMask` bits. */
  const Any: bv32 := 0
  const Public: bv32 := 1
  const Serialized: bv32 := 2
  const SkipNotSerialized: bv32 := 4
  const OnlyDrawAttr: bv32 := 8

  predicate Has(mask: bv32, bit: bv32) {
    mask & bit != 0
  }

  /**
   * The eligibility test applied to a field that carries no `Draw` attribute,
   * characterised mask by mask: OnlyDrawAttr and a non-serialized field under
   * SkipNotSerialized exclude; Any admits every field, Public the public ones
   * and Serialized those marked `[SerializeField]`.
   */
  predicate Eligible(mask: bv32, f: FieldDecl): (b: bool)
    ensures Has(mask, OnlyDrawAttr) ==> !b
    ensures Has(mask, SkipNotSerialized) && f.notSerialized ==> !b
    ensures mask == Any ==> b
    ensures mask == Public ==> (b <==> f.isPublic)
    ensures mask == Serialized ==> (b <==> f.serializeField)
    ensures mask == Public | Serialized ==> (b <==> f.isPublic || f.serializeField)
  {
    (mask & OnlyDrawAttr) == 0 && ((mask & SkipNotSerialized) == 0 || !f.notSerialized)
    && (((mask & Public) > 0 && f.isPublic)
        || ((mask & Serialized) > 0 && f.serializeField)
        || ((mask & Public) == 0 && (mask & Serialized) == 0))
  }

  /**
   * The three conditions a field must meet, stated one by one in terms of the
   * individual bits: OnlyDrawAttr clear; SkipNotSerialized clear or the field
   * serialized; and an accessibility clause that matches the visibility bits.
   */
  lemma EligibleConditions(mask: bv32, f: FieldDecl)
    ensures Eligible(mask, f) <==>
      !Has(mask, OnlyDrawAttr)
      && (!Has(mask, SkipNotSerialized) || !f.notSerialized)
      && (if !Has(mask, Public) && !Has(mask, Serialized) then true
          else (Has(mask, Public) && f.isPublic) || (Has(mask, Serialized) && f.serializeField))
  {
  }

  /** Only the four defined bits matter; any other bit of the mask is ignored. */
  lemma EligibleIgnoresOtherBits(mask: bv32, f: FieldDecl)
    ensures Eligible(mask, f) == Eligible(mask & 0xF, f)
  {
  }

  /** Setting SkipNotSerialized never admits a field the mask without it rejects. */
  lemma SkipNotSerializedNarrows(mask: bv32, f: FieldDecl)
    ensures Eligible(mask | SkipNotSerialized, f) ==> Eligible(mask, f)
    ensures !f.notSerialized ==> (Eligible(mask | SkipNotSerialized, f) <==> Eligible(mask, f))
  {
  }

  /** Setting both Public and Serialized admits exactly the union of the two single-bit masks. */
  lemma PublicSerializedUnion(f: FieldDecl)
    ensures Eligible(Public | Serialized, f) <==> Eligible(Public, f) || Eligible(Serialized, f)
  {
  }

  /** A `DrawFields` attribute, if present, replaces the mask that would otherwise apply. */
  function Overridden(attr: Option<bv32>, mask: bv32): bv32 {
    attr.GetOr(mask)
  }

  /** The mask in force for a type: its own `DrawFields` attribute if any, else the mask handed down. */
  function EffectiveMask(handedDown: bv32, t: TypeDecl): (m: bv32)
    ensures t.drawFields.Some? ==> m == t.drawFields.value
    ensures t.drawFields.None? ==> m == handedDown
  {
    Overridden(t.drawFields, handedDown)
  }

  /** The mask handed to a nested group: the field's own `DrawFields` attribute if any, else the current mask. */
  function ChildMask(current: bv32, f: FieldDecl): (m: bv32)
    ensures f.drawFields.Some? ==> m == f.drawFields.value
    ensures f.drawFields.None? ==> m == current
  {
    Overridden(f.drawFields, current)
  }

  /**
   * Inside a nested group the nested type's own attribute wins over the field's,
   * which wins over the mask of the enclosing type.
   */
  lemma NestedMaskPrecedence(current: bv32, f: FieldDecl, d: TypeDecl)
    ensures EffectiveMask(ChildMask(current, f), d) ==
      (if d.drawFields.Some? then d.drawFields.value
       else if f.drawFields.Some? then f.drawFields.value
       else current)
  {
  }

  /**
   * The attribute an eligible field without `Draw` is drawn with: the defaults,
   * turned into a slider over the `[Range]` bounds when the field has one.
   */
  function Promote(f: FieldDecl): (a: DrawAttr)
    ensures f.range.Some? ==> a.kind == Slider && a.min == f.range.value.min && a.max == f.range.value.max
    ensures f.range.None? ==> a == DefaultAttr
    ensures a.visibleOn == "" && a.invisibleOn == "" && !a.collapsible
  {
    match f.range
    case Some(r) => DefaultAttr.(kind := Slider, min := r.min, max := r.max)
    case None => DefaultAttr
  }
}
