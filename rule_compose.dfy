/**
  `compose(fn, message = null, key = null)`: builds a rule from a plain
  predicate on the value; empty values pass without consulting `fn`.
 */
module ComposeRule {
  import opened JsValues
  import opened Outcomes

  /** A defaulted parameter: `undefined` is replaced by `null`. */
  function OrNull(v: JsValue): (r: JsValue)
    ensures r != Undefined
    ensures v != Undefined ==> r == v
  {
    if v.Undefined? then Null else v
  }

  /** The validator `compose` returns, as a function of the props it is called with. */
  function Compose(fn: JsValue -> JsValue, message: JsValue, key: JsValue): (rule: Options -> RuleResult)
    ensures forall o :: !Truthy(Prop(o, "value")) ==> rule(o) == Plain(Bool(true))
    ensures forall o :: Truthy(Prop(o, "value")) ==>
      rule(o) == Object(Bool(Truthy(fn(Prop(o, "value")))), Some(OrNull(message)), Some(OrNull(key)))
  {
    o => var value := Prop(o, "value");
         if !Truthy(value) then Plain(Bool(true))
         else Object(Bool(Truthy(fn(value))), Some(OrNull(message)), Some(OrNull(key)))
  }

  /** For a falsy value the predicate is never consulted: any two predicates agree. */
  lemma FalsyIgnoresPredicate(fn1: JsValue -> JsValue, fn2: JsValue -> JsValue, message: JsValue, key: JsValue, o: Options)
    requires !Truthy(Prop(o, "value"))
    ensures Compose(fn1, message, key)(o) == Compose(fn2, message, key)(o) == Plain(Bool(true))
  {
  }

  /** Message and key do not depend on the value or the verdict. */
  lemma MessageAndKeyFixed(fn: JsValue -> JsValue, message: JsValue, key: JsValue, o1: Options, o2: Options)
    requires Truthy(Prop(o1, "value")) && Truthy(Prop(o2, "value"))
    ensures Compose(fn, message, key)(o1).message == Compose(fn, message, key)(o2).message
    ensures Compose(fn, message, key)(o1).key == Compose(fn, message, key)(o2).key
  {
  }
}
