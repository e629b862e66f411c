/**
  What a rule may return, and the normaliser `isValid` that the field's
  validation pipeline applies to each result. Promises are modelled as
  already-settled values.
 */
module Outcomes {
  import opened JsValues

  /** The reason a promise was rejected with. */
  datatype Reason =
    | Thrown(thrown: JsValue)                          // a primitive was thrown
    | ErrorObject(errMessage: JsValue, hasValid: bool) // an object; `hasValid` is `"valid" in error`

  datatype Settlement =
    | Resolved(result: RuleResult)
    | Rejected(reason: Reason)

  datatype RuleResult =
    | Plain(v: JsValue)                                              // a boolean, number, string, ...
    | Object(valid: JsValue, message: Option<JsValue>, key: Option<JsValue>)  // None: property absent
    | Promise(settled: Settlement)                                   // a thenable

  /**
    A result the synchronous loop can process without a TypeError:
    `result.then` is read on every result, so null and undefined are out.
    A promise never resolves to another thenable (it would be flattened);
    a resolution to null is dealt with where it is normalised.
   */
  predicate WellFormedResult(r: RuleResult)
  {
    match r
    case Plain(v) => !v.Null? && !v.Undefined?
    case Object(_, _, _) => true
    case Promise(s) => s.Resolved? ==> !s.result.Promise?
  }

  /**
    The normaliser: an object yields its `valid` property and, when it has
    a `message` property, that message replaces the pending error message;
    anything else yields its truthiness and keeps the message.
   */
  function Normalise(r: RuleResult, msg: JsValue): (res: (bool, JsValue))
    ensures !r.Object? ==> res.1 == msg
    ensures r.Object? ==> res.0 == Truthy(r.valid)
    ensures r.Object? ==> res.1 == if r.message.Some? then r.message.value else msg
    ensures r.Plain? ==> res.0 == Truthy(r.v)
  {
    match r
    case Object(valid, message, _) =>
      (Truthy(valid), if message.Some? then message.value else msg)
    case Plain(v) => (Truthy(v), msg)
    // a promise object has neither `message` nor `valid`
    case Promise(_) => (false, msg)
  }

  /** Verdict of the normaliser, which does not depend on the pending message. */
  predicate IsValidResult(r: RuleResult)
  {
    Normalise(r, Null).0
  }

  lemma VerdictIgnoresMessage(r: RuleResult, m1: JsValue, m2: JsValue)
    ensures Normalise(r, m1).0 == Normalise(r, m2).0
    ensures Normalise(r, m1).0 == IsValidResult(r)
  {
  }

  /** The message a rejection contributes: `error && error.message && "valid" in error`. */
  function RejectionMessage(reason: Reason, msg: JsValue): (m: JsValue)
    ensures reason.Thrown? ==> m == msg
    ensures reason.ErrorObject? && !reason.hasValid ==> m == msg
    ensures m != msg ==> reason.ErrorObject? && reason.hasValid && Truthy(reason.errMessage) && m == reason.errMessage
    ensures reason.ErrorObject? && reason.hasValid && Truthy(reason.errMessage) ==> m == reason.errMessage
  {
    match reason
    // a primitive has no `message` property
    case Thrown(_) => msg
    case ErrorObject(em, hasValid) => if Truthy(em) && hasValid then em else msg
  }
}
