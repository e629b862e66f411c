/**
  The slice of JavaScript's value model that the validation rules and the
  form store touch: the primitive values a field can hold, truthiness
  (`!!v`), string conversion (`v + ""`) and the two equality operators.
  Numbers are modelled as integers only.
 */
module JsValues {

  datatype Option<+T> = None | Some(value: T)

  datatype JsValue =
    | Undefined
    | Null
    | Bool(b: bool)
    | Int(i: int)
    | Str(s: string)

  /** The props object handed to a rule (`{ ...rule.options, value }`). */
  type Options = map<string, JsValue>

  /** Reading a property that is absent gives `undefined`. */
  function Prop(o: Options, name: string): (v: JsValue)
    ensures name !in o ==> v == Undefined
    ensures name in o ==> v == o[name]
  {
    if name in o then o[name] else Undefined
  }

  /** `!!v`: undefined, null, false, 0 and "" are falsy, everything else truthy. */
  predicate Truthy(v: JsValue)
  {
    match v
    case Undefined => false
    case Null => false
    case Bool(b) => b
    case Int(i) => i != 0
    case Str(s) => s != ""
  }

  function DigitChar(d: nat): (c: char)
    requires d < 10
    ensures '0' <= c <= '9'
  {
    "0123456789"[d]
  }

  /** Decimal digits of a natural number, most significant first. */
  function NatToString(n: nat): (s: string)
    ensures |s| > 0
    ensures forall k :: 0 <= k < |s| ==> '0' <= s[k] <= '9'
    ensures n > 0 ==> s[0] != '0'
  {
    if n < 10 then [DigitChar(n)] else NatToString(n / 10) + [DigitChar(n % 10)]
  }

  /** Number-to-string conversion for integers (as in a template literal). */
  function IntToString(i: int): (s: string)
    ensures |s| > 0
  {
    if i < 0 then "-" + NatToString(-i) else NatToString(i)
  }

  /** `v + ""` */
  function ToJsString(v: JsValue): (s: string)
  {
    match v
    case Undefined => "undefined"
    case Null => "null"
    case Bool(b) => if b then "true" else "false"
    case Int(i) => IntToString(i)
    case Str(s) => s
  }

  /** Every truthy value converts to a non-empty string. */
  lemma TruthyToStringNonEmpty(v: JsValue)
    requires Truthy(v)
    ensures ToJsString(v) != ""
  {
  }

  /** `a === b` (no NaN: numbers are integers here). */
  predicate StrictEquals(a: JsValue, b: JsValue)
  {
    a == b
  }

  /**
    The pairs for which `a == b` does not need string-to-number parsing:
    a string compared against a number or a boolean is left out.
   */
  predicate LooselyComparable(a: JsValue, b: JsValue)
  {
    !(a.Str? && (b.Int? || b.Bool?)) && !(b.Str? && (a.Int? || a.Bool?))
  }

  function BoolToNumber(b: bool): int
  {
    if b then 1 else 0
  }

  /** `a == b`, JavaScript's abstract equality, on comparable pairs. */
  predicate LooseEquals(a: JsValue, b: JsValue)
    requires LooselyComparable(a, b)
  {
    match (a, b)
    case (Undefined, Undefined) => true
    case (Undefined, Null) => true
    case (Null, Undefined) => true
    case (Null, Null) => true
    case (Undefined, _) => false
    case (Null, _) => false
    case (_, Undefined) => false
    case (_, Null) => false
    case (Bool(x), Bool(y)) => x == y
    case (Int(x), Int(y)) => x == y
    case (Str(x), Str(y)) => x == y
    case (Bool(x), Int(y)) => BoolToNumber(x) == y
    case (Int(x), Bool(y)) => x == BoolToNumber(y)
  }

  /** Loose equality agrees with strict equality on operands of the same kind. */
  lemma LooseIsStrictOnSameKind(a: JsValue, b: JsValue)
    requires a.Bool? == b.Bool? && a.Int? == b.Int? && a.Str? == b.Str?
    requires a.Null? == b.Null? && a.Undefined? == b.Undefined?
    ensures LooselyComparable(a, b)
    ensures LooseEquals(a, b) <==> StrictEquals(a, b)
  {
  }

  /** Strict equality implies loose equality; loose equality is symmetric. */
  lemma LooseEqualsProperties(a: JsValue, b: JsValue)
    requires LooselyComparable(a, b)
    ensures StrictEquals(a, b) ==> LooseEquals(a, b)
    ensures LooselyComparable(b, a) && (LooseEquals(a, b) <==> LooseEquals(b, a))
  {
  }
}
