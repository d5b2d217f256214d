/**
 * cart/serializers.py: `CartItemSerializer.validate`, the chain of guards
 * run on a cart line's data before it is created or updated, preceded by
 * the one field-level step with a rule of its own: `variant_detail` is a
 * primary-key field, so a key that names no variant is refused with 400
 * before `validate` runs. IntegerField parsing is assumed to have happened.
 */
module CartSerializers {
  import opened Wrappers
  import opened ProductModels

  /** The validated data: `variant` (from `variant_detail`) and `quantity`, each possibly absent. */
  datatype Attrs = Attrs(variant: Option<nat>, quantity: Option<int>)

  datatype CartItemError =
    | UnknownVariant(pk: nat)     // {"variant_detail": "Invalid pk \"<pk>\" - object does not exist."}
    | QuantityRequired            // {"quantity": "This field is required."}
    | VariantRequired             // {"variant_detail": "This field is required for creating a cart item."}
    | QuantityBelowOne            // {"quantity": "You must add at least 1 item."}
    | OverStock(available: nat)   // {"quantity": "Only <stock> items available in stock."}

  /** The variant whose stock is checked: the instance's on update, the supplied one on create. */
  function CheckedVariant(attrs: Attrs, instanceVariant: Option<nat>): Option<nat>
  {
    if instanceVariant.Some? then instanceVariant else attrs.variant
  }

  /** The supplied variant key, if any, names an existing variant. */
  predicate KnownVariant(attrs: Attrs, variants: map<nat, Variant>)
  {
    attrs.variant.Some? ==> attrs.variant.value in variants
  }

  /**
   * The `variant_detail` field step, then `validate`; `instanceVariant` is
   * the variant of `self.instance` on update and `None` on create. Valid
   * data is returned unchanged.
   */
  function Validate(attrs: Attrs, instanceVariant: Option<nat>, variants: map<nat, Variant>): (r: Result<Attrs, CartItemError>)
    requires instanceVariant.Some? ==> instanceVariant.value in variants
    ensures r.Success? ==> r.value == attrs
    ensures r.Success? <==>
      && KnownVariant(attrs, variants)
      && attrs.quantity.Some?
      && CheckedVariant(attrs, instanceVariant).Some?
      && 1 <= attrs.quantity.value <= variants[CheckedVariant(attrs, instanceVariant).value].stock
    ensures !KnownVariant(attrs, variants) ==> r == Failure(UnknownVariant(attrs.variant.value))
    ensures KnownVariant(attrs, variants) && attrs.quantity.None? ==> r == Failure(QuantityRequired)
    ensures KnownVariant(attrs, variants) && attrs.quantity.Some? && instanceVariant.None? && attrs.variant.None?
            ==> r == Failure(VariantRequired)
    ensures KnownVariant(attrs, variants) && attrs.quantity.Some? && CheckedVariant(attrs, instanceVariant).Some?
            && attrs.quantity.value <= 0
            ==> r == Failure(QuantityBelowOne)
    ensures KnownVariant(attrs, variants) && attrs.quantity.Some? && CheckedVariant(attrs, instanceVariant).Some?
            && variants[CheckedVariant(attrs, instanceVariant).value].stock < attrs.quantity.value
            && attrs.quantity.value >= 1
            ==> r == Failure(OverStock(variants[CheckedVariant(attrs, instanceVariant).value].stock))
  {
    if !KnownVariant(attrs, variants) then Failure(UnknownVariant(attrs.variant.value))
    else if attrs.quantity.None? then Failure(QuantityRequired)
    else if instanceVariant.None? && attrs.variant.None? then Failure(VariantRequired)
    else
      var variant := CheckedVariant(attrs, instanceVariant).value;
      var quantity := attrs.quantity.value;
      if quantity <= 0 then Failure(QuantityBelowOne)
      else if variants[variant].stock < quantity then Failure(OverStock(variants[variant].stock))
      else Success(attrs)
  }

  /**
   * On update, once the field step has resolved both supplied keys, the
   * check never looks at the supplied variant, only at the instance's.
   */
  lemma UpdateChecksInstanceVariant(attrs: Attrs, other: Option<nat>, instanceVariant: nat, variants: map<nat, Variant>)
    requires attrs.variant.Some? ==> attrs.variant.value in variants
    requires other.Some? ==> other.value in variants
    requires instanceVariant in variants
    ensures Validate(attrs, Some(instanceVariant), variants).Success?
            <==> Validate(attrs.(variant := other), Some(instanceVariant), variants).Success?
    ensures Validate(attrs, Some(instanceVariant), variants).Failure?
            ==> Validate(attrs, Some(instanceVariant), variants) == Validate(attrs.(variant := other), Some(instanceVariant), variants)
  {
  }
}
