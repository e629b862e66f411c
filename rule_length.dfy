/**
  `Length({ value, is, lessThan, greaterThan })`: length bounds on the
  string form of the value; an empty value is left to `Required`.
 */
module LengthRule {
  import opened JsValues
  import opened Outcomes

  /** A bound is either unset (falsy) or an integer; other numeric coercions are left out. */
  predicate IsBound(b: JsValue)
  {
    Truthy(b) ==> b.Int?
  }

  function LessThanMessage(n: int): string
  {
    "Must be less than " + IntToString(n) + " characters"
  }

  function GreaterThanMessage(n: int): string
  {
    "Must be greater than " + IntToString(n) + " characters"
  }

  /** The rule itself; `len` is the length of `value + ""`. */
  function Length(value: JsValue, exactly: JsValue, lessThan: JsValue, greaterThan: JsValue): (r: RuleResult)
    requires IsBound(lessThan) && IsBound(greaterThan)
    // an empty value passes whatever the bounds
    ensures !Truthy(value) ==> r == Object(Bool(true), None, None)
    // `is` (here `exactly`, as `is` is a Dafny keyword) gives a bare boolean, with no message and no key
    ensures Truthy(value) && Truthy(exactly) ==> r == Plain(Bool(exactly == Int(|ToJsString(value)|)))
    ensures Truthy(value) && !Truthy(exactly) ==>
      var len := |ToJsString(value)|;
      && r.Object? && r.key == Some(Str("length")) && r.valid.Bool?
      && (r.valid.b <==> (Truthy(lessThan) ==> len < lessThan.i) && (Truthy(greaterThan) ==> len > greaterThan.i))
      // the message names the bound that was checked last
      && r.message == Some(Str(
           if Truthy(greaterThan) && (!Truthy(lessThan) || len < lessThan.i) then GreaterThanMessage(greaterThan.i)
           else if Truthy(lessThan) then LessThanMessage(lessThan.i)
           else ""))
  {
    var s := if Truthy(value) then ToJsString(value) else "";
    if s == "" then
      Object(Bool(true), None, None)
    else if Truthy(exactly) then
      Plain(Bool(exactly == Int(|s|)))
    else
      var (valid1, message1) :=
        if Truthy(lessThan) then (|s| < lessThan.i, LessThanMessage(lessThan.i)) else (true, "");
      var (valid, message) :=
        if valid1 && Truthy(greaterThan) then (|s| > greaterThan.i, GreaterThanMessage(greaterThan.i))
        else (valid1, message1);
      Object(Bool(valid), Some(Str(message)), Some(Str("length")))
  }

  /** With no bound set, a non-empty value gives `{ valid: true, message: "" }` with the key. */
  lemma NoBoundsPasses(value: JsValue)
    requires Truthy(value)
    ensures Length(value, Undefined, Undefined, Undefined) == Object(Bool(true), Some(Str("")), Some(Str("length")))
  {
  }

  /** The rule's results are always accepted by the validation pipeline. */
  lemma LengthWellFormed(value: JsValue, exactly: JsValue, lessThan: JsValue, greaterThan: JsValue)
    requires IsBound(lessThan) && IsBound(greaterThan)
    ensures WellFormedResult(Length(value, exactly, lessThan, greaterThan))
  {
  }
}
