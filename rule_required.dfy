/** `Required({ value })`: the only prop it reads is `value`. */
module RequiredRule {
  import opened JsValues
  import opened Outcomes

  function Required(value: JsValue): (r: RuleResult)
    ensures r.Object? && r.valid.Bool? && (r.valid.b <==> Truthy(value))
    ensures r.key == Some(Str("required"))
    ensures r.message == Some(Str("This field is required"))
  {
    Object(Bool(Truthy(value)), Some(Str("This field is required")), Some(Str("required")))
  }
}
