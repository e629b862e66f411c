/** `Equal({ value, strict, to })`. */
module EqualRule {
  import opened JsValues
  import opened Outcomes

  function Equal(value: JsValue, strict: JsValue, to: JsValue): (r: RuleResult)
    requires !Truthy(strict) ==> LooselyComparable(value, to)
    ensures r.Object? && r.valid.Bool?
    ensures Truthy(strict) ==> (r.valid.b <==> StrictEquals(value, to))
    ensures !Truthy(strict) ==> (r.valid.b <==> LooseEquals(value, to))
    // key and message are set whatever the verdict
    ensures r.key == Some(Str("equal"))
    ensures r.message == Some(Str("Value must match"))
  {
    var valid := if Truthy(strict) then value == to else LooseEquals(value, to);
    Object(Bool(valid), Some(Str("Value must match")), Some(Str("equal")))
  }

  /** A strict comparison that passes also passes loosely. */
  lemma StrictPassImpliesLoosePass(value: JsValue, to: JsValue)
    requires LooselyComparable(value, to)
    ensures IsValidResult(Equal(value, Bool(true), to)) ==> IsValidResult(Equal(value, Bool(false), to))
  {
    LooseEqualsProperties(value, to);
  }
}
