/**
  The field controller: a field's value, validity and error message, kept
  either in the field itself or in an enclosing form, and the validation
  pipeline that runs the field's rules in order, stops at the first
  synchronous failure, sets promises aside and settles them afterwards.
 */
module FieldController {
  import opened JsValues
  import opened Outcomes
  import opened FormStore

  // ---------------------------------------------------------------------
  // Rules, as read from the field's children.

  /** A validator and the props of the element it came from. */
  datatype Rule = Rule(fn: Options -> RuleResult, options: Options)

  /** An element's `type`: a function (a rule), or anything else (a tag name). */
  datatype ElementType = Function(fn: Options -> RuleResult) | Tag(tag: string)

  datatype Child = Element(kind: ElementType, props: Options) | Text(text: string)

  predicate IsRuleChild(c: Child)
  {
    c.Element? && c.kind.Function?
  }

  /** The rule a function-typed child stands for. */
  function AsRule(c: Child): Rule
    requires IsRuleChild(c)
  {
    Rule(c.kind.fn, c.props)
  }

  /** `rules()` on a list of children: the function-typed elements, in order. */
  function RulesOf(children: seq<Child>): (rs: seq<Rule>)
    ensures |rs| <= |children|
    // every function-typed child gives a rule, and every rule comes from one
    ensures forall i :: 0 <= i < |children| && IsRuleChild(children[i]) ==> AsRule(children[i]) in rs
    ensures forall r :: r in rs ==> exists i :: 0 <= i < |children| && IsRuleChild(children[i]) && r == AsRule(children[i])
    // when every child is function-typed, the rules are the children, position by position
    ensures (forall i :: 0 <= i < |children| ==> IsRuleChild(children[i])) ==>
              |rs| == |children| && forall i :: 0 <= i < |rs| ==> rs[i] == AsRule(children[i])
    ensures (forall i :: 0 <= i < |children| ==> !IsRuleChild(children[i])) ==> rs == []
  {
    if children == [] then []
    else
      var c := children[0];
      var rest := RulesOf(children[1..]);
      assert forall i :: 1 <= i < |children| ==> children[i] == children[1..][i - 1];
      (if IsRuleChild(c) then [AsRule(c)] else []) + rest
  }

  /** A single child gives its rule or nothing; with `RulesOfAppend` this fixes the order of the rules. */
  lemma RulesOfSingle(c: Child)
    ensures RulesOf([c]) == if IsRuleChild(c) then [AsRule(c)] else []
  {
    assert [c][1..] == [];
  }

  /** Rule extraction distributes over concatenation of the children. */
  lemma {:induction false} RulesOfAppend(a: seq<Child>, b: seq<Child>)
    ensures RulesOf(a + b) == RulesOf(a) + RulesOf(b)
  {
    if a == [] {
      assert a + b == b;
    } else {
      assert (a + b)[1..] == a[1..] + b;
      RulesOfAppend(a[1..], b);
    }
  }

  /**
    `rules()` as the source has it: when the field has no children,
    `React.Children.map` returns `undefined` and `.filter` throws (None).
   */
  function RulesAsWritten(children: Option<seq<Child>>): (r: Option<seq<Rule>>)
    ensures children.None? <==> r.None?
  {
    if children.None? then None else Some(RulesOf(children.value))
  }

  /** `rules()` as evidently intended: a field without children has no rules. */
  function Rules(children: Option<seq<Child>>): (rs: seq<Rule>)
    ensures children.None? ==> rs == []
    ensures children.Some? ==> RulesAsWritten(children) == Some(rs)
  {
    if children.None? then [] else RulesOf(children.value)
  }

  /** The props a rule is called with: its own, with `value` replaced by the field's value. */
  function RuleInput(rule: Rule, value: JsValue): (o: Options)
    ensures Prop(o, "value") == value
    ensures forall k :: k != "value" ==> Prop(o, k) == Prop(rule.options, k)
  {
    rule.options["value" := value]
  }

  /** What every rule would return for this value (rules are pure functions of their props). */
  function ResultsFor(rules: seq<Rule>, value: JsValue): (rs: seq<RuleResult>)
    ensures |rs| == |rules|
    ensures forall i :: 0 <= i < |rules| ==> rs[i] == rules[i].fn(RuleInput(rules[i], value))
  {
    seq(|rules|, i requires 0 <= i < |rules| => rules[i].fn(RuleInput(rules[i], value)))
  }

  // ---------------------------------------------------------------------
  // The synchronous scan.

  /**
    The loop's state: how many rules were called, whether a synchronous
    result was invalid, the promises set aside, and the pending message.
   */
  datatype Pass = Pass(examined: nat, failed: bool, promises: seq<Settlement>, message: JsValue)

  function Start(errorMessage: JsValue): Pass
  {
    Pass(0, false, [], errorMessage)
  }

  /** One iteration of the loop on the result of the next rule. */
  function Step(p: Pass, r: RuleResult): Pass
  {
    if r.Promise? then
      p.(examined := p.examined + 1, promises := p.promises + [r.settled])
    else
      var (ok, m) := Normalise(r, p.message);
      p.(examined := p.examined + 1, failed := !ok, message := m)
  }

  /** The loop over the results, stopping once a synchronous result is invalid. */
  function Scan(p: Pass, rs: seq<RuleResult>): Pass
    decreases |rs|
  {
    if rs == [] || p.failed then p else Scan(Step(p, rs[0]), rs[1..])
  }

  /** A result that ends the loop: synchronous, and invalid once normalised. */
  predicate SyncFailure(r: RuleResult)
  {
    !r.Promise? && !IsValidResult(r)
  }

  /** The promises among some results, in order. */
  function PromisesOf(rs: seq<RuleResult>): (ss: seq<Settlement>)
    ensures |ss| <= |rs|
  {
    if rs == [] then []
    else (if rs[0].Promise? then [rs[0].settled] else []) + PromisesOf(rs[1..])
  }

  /** The `message` of the last result that is an object with a `message` property, else `d`. */
  function LastMessage(rs: seq<RuleResult>, d: JsValue): JsValue
  {
    if rs == [] then d
    else
      var r := rs[|rs| - 1];
      if r.Object? && r.message.Some? then r.message.value else LastMessage(rs[..|rs| - 1], d)
  }

  lemma {:induction false} LastMessageAppend(a: seq<RuleResult>, b: seq<RuleResult>, d: JsValue)
    ensures LastMessage(a + b, d) == LastMessage(b, LastMessage(a, d))
    decreases |b|
  {
    if b == [] {
      assert a + b == a;
    } else {
      assert (a + b)[..|a + b| - 1] == a + b[..|b| - 1];
      LastMessageAppend(a, b[..|b| - 1], d);
    }
  }

  lemma {:induction false} PromisesOfAppend(a: seq<RuleResult>, b: seq<RuleResult>)
    ensures PromisesOf(a + b) == PromisesOf(a) + PromisesOf(b)
  {
    if a == [] {
      assert a + b == b;
    } else {
      var h := if a[0].Promise? then [a[0].settled] else [];
      assert (a + b)[0] == a[0] && (a + b)[1..] == a[1..] + b;
      assert PromisesOf(a + b) == h + PromisesOf(a[1..] + b);
      assert PromisesOf(a) == h + PromisesOf(a[1..]);
      PromisesOfAppend(a[1..], b);
    }
  }

  /** How far the scan gets from an unfailed state: just past the first synchronous failure, or to the end. */
  lemma {:induction false} ScanReach(p: Pass, rs: seq<RuleResult>)
    requires !p.failed
    ensures var q := Scan(p, rs);
            var n := q.examined - p.examined;
            && 0 <= n <= |rs|
            && (q.failed ==> n >= 1 && SyncFailure(rs[n - 1]))
            && (!q.failed ==> n == |rs|)
            && (forall j :: 0 <= j < n - 1 ==> !SyncFailure(rs[j]))
            && (!q.failed ==> forall j :: 0 <= j < |rs| ==> !SyncFailure(rs[j]))
    decreases |rs|
  {
    if rs != [] {
      var r := rs[0];
      var p' := Step(p, r);
      VerdictIgnoresMessage(r, p.message, Null);
      assert p'.failed <==> SyncFailure(r);
      if !p'.failed {
        ScanReach(p', rs[1..]);
        assert forall j :: 0 < j < |rs| ==> rs[j] == rs[1..][j - 1];
      }
    }
  }

  /** What the scan has accumulated: the promises and the last message of the results it examined. */
  lemma {:induction false} ScanAccumulates(p: Pass, rs: seq<RuleResult>)
    requires !p.failed
    ensures var q := Scan(p, rs);
            var n := q.examined - p.examined;
            && 0 <= n <= |rs|
            && q.promises == p.promises + PromisesOf(rs[..n])
            && q.message == LastMessage(rs[..n], p.message)
    decreases |rs|
  {
    ScanReach(p, rs);
    if rs == [] {
      assert rs[..0] == [];
    } else {
      var r := rs[0];
      var p' := Step(p, r);
      assert Scan(p, rs) == Scan(p', rs[1..]);
      StepAccumulates(p, r);
      if p'.failed {
        assert Scan(p, rs) == p';
        assert rs[..1] == [r];
      } else {
        ScanAccumulates(p', rs[1..]);
        var k := Scan(p', rs[1..]).examined - p'.examined;
        assert rs[..k + 1] == [r] + rs[1..][..k];
        LastMessageAppend([r], rs[1..][..k], p.message);
        PromisesOfAppend([r], rs[1..][..k]);
      }
    }
  }

  lemma StepAccumulates(p: Pass, r: RuleResult)
    ensures Step(p, r).promises == p.promises + PromisesOf([r])
    ensures Step(p, r).message == LastMessage([r], p.message)
    ensures Step(p, r).examined == p.examined + 1
  {
    assert [r][1..] == [];
    assert [r][..0] == [];
  }

  lemma ScanUnfold(p: Pass, rs: seq<RuleResult>, i: nat)
    requires !p.failed && i < |rs|
    ensures Scan(p, rs[i..]) == Scan(Step(p, rs[i]), rs[i + 1..])
  {
    assert rs[i..][0] == rs[i] && rs[i..][1..] == rs[i + 1..];
  }

  /**
    Once a synchronous result is invalid, no later rule is called; a
    promise never stops the loop. The rules called are exactly those up to
    and including the first synchronous failure, or all of them.
   */
  lemma StopsAtFirstSyncFailure(rs: seq<RuleResult>, errorMessage: JsValue)
    ensures var q := Scan(Start(errorMessage), rs);
            && q.examined <= |rs|
            && (q.failed <==> exists i :: 0 <= i < |rs| && SyncFailure(rs[i]))
            && (q.failed ==> q.examined >= 1 && SyncFailure(rs[q.examined - 1]))
            && (forall j :: 0 <= j < |rs| && SyncFailure(rs[j]) ==> j >= q.examined - 1)
            && (!q.failed ==> q.examined == |rs|)
  {
    ScanReach(Start(errorMessage), rs);
  }

  /** Promises met before the loop stops are all set aside, in order. */
  lemma PromisesSetAside(rs: seq<RuleResult>, errorMessage: JsValue)
    ensures var q := Scan(Start(errorMessage), rs);
            q.examined <= |rs| && q.promises == PromisesOf(rs[..q.examined])
  {
    ScanAccumulates(Start(errorMessage), rs);
  }

  /**
    The pending message is the `errorMessage` prop unless an examined
    object result has a `message` property; then the last such message
    wins, whether that result was valid or not.
   */
  lemma MessageIsLastExamined(rs: seq<RuleResult>, errorMessage: JsValue)
    ensures var q := Scan(Start(errorMessage), rs);
            q.examined <= |rs| && q.message == LastMessage(rs[..q.examined], errorMessage)
  {
    ScanAccumulates(Start(errorMessage), rs);
  }

  // ---------------------------------------------------------------------
  // The decision after the loop, and the settlement of the promises.

  /** The promises set aside and the message pending when they were. */
  datatype Batch = Batch(promises: seq<Settlement>, message: JsValue)

  /** What `validate()` leads to: a verdict now, or a batch of promises to settle first. */
  datatype Decision = Finish(valid: bool, message: JsValue) | Defer(batch: Batch)

  function Decide(rs: seq<RuleResult>, errorMessage: JsValue): Decision
  {
    var q := Scan(Start(errorMessage), rs);
    if !q.failed && q.promises != [] then Defer(Batch(q.promises, q.message))
    else Finish(!q.failed, q.message)
  }

  /**
    With no promise among the results, the verdict is the conjunction of
    the normalised results, and an empty rule list is valid.
   */
  lemma SyncVerdictIsConjunction(rs: seq<RuleResult>, errorMessage: JsValue)
    requires forall i :: 0 <= i < |rs| ==> !rs[i].Promise?
    ensures Decide(rs, errorMessage).Finish?
    ensures Decide(rs, errorMessage).valid <==> forall i :: 0 <= i < |rs| ==> IsValidResult(rs[i])
    ensures rs == [] ==> Decide(rs, errorMessage) == Finish(true, errorMessage)
  {
    ScanReach(Start(errorMessage), rs);
    ScanAccumulates(Start(errorMessage), rs);
    var q := Scan(Start(errorMessage), rs);
    if !q.failed {
      NoPromises(rs[..q.examined]);
    }
    if q.failed {
      assert !IsValidResult(rs[q.examined - 1]);
    }
  }

  lemma {:induction false} NoPromises(rs: seq<RuleResult>)
    requires forall i :: 0 <= i < |rs| ==> !rs[i].Promise?
    ensures PromisesOf(rs) == []
  {
    if rs != [] {
      NoPromises(rs[1..]);
    }
  }

  /** The first rejected settlement, in list order, is the one `Promise.all` reports. */
  function FirstRejection(ss: seq<Settlement>): (r: Option<Reason>)
    ensures r.None? <==> forall i :: 0 <= i < |ss| ==> ss[i].Resolved?
    ensures r.Some? ==> exists i :: 0 <= i < |ss| && ss[i] == Rejected(r.value) &&
                                   forall j :: 0 <= j < i ==> ss[j].Resolved?
  {
    if ss == [] then None
    else if ss[0].Rejected? then Some(ss[0].reason)
    else
      var r := FirstRejection(ss[1..]);
      if r.Some? then
        var i :| 0 <= i < |ss[1..]| && ss[1..][i] == Rejected(r.value) && forall j :: 0 <= j < i ==> ss[1..][j].Resolved?;
        assert ss[i + 1] == Rejected(r.value);
        r
      else r
  }

  function ResolvedValues(ss: seq<Settlement>): (rs: seq<RuleResult>)
    requires forall i :: 0 <= i < |ss| ==> ss[i].Resolved?
    ensures |rs| == |ss| && forall i :: 0 <= i < |ss| ==> rs[i] == ss[i].result
  {
    seq(|ss|, i requires 0 <= i < |ss| => ss[i].result)
  }

  /** The index of the first result that normalises to invalid, or the length when there is none. */
  function FirstInvalid(rs: seq<RuleResult>): (k: nat)
    ensures k <= |rs|
    ensures forall j :: 0 <= j < k ==> IsValidResult(rs[j])
    ensures k < |rs| ==> !IsValidResult(rs[k])
  {
    if rs == [] then 0
    else if !IsValidResult(rs[0]) then 0
    else 1 + FirstInvalid(rs[1..])
  }

  /** `results.every(isValid)`: stops at the first invalid result, updating the message as it goes. */
  function EveryValid(rs: seq<RuleResult>, msg: JsValue): (bool, JsValue)
  {
    if rs == [] then (true, msg)
    else
      var (ok, m) := Normalise(rs[0], msg);
      if !ok then (false, m) else EveryValid(rs[1..], m)
  }

  /** The verdict and message of a settled batch. */
  function AsyncVerdict(b: Batch): (bool, JsValue)
  {
    match FirstRejection(b.promises)
    case Some(reason) => (false, RejectionMessage(reason, b.message))
    case None => EveryValid(ResolvedValues(b.promises), b.message)
  }

  /**
    `every(isValid)` holds iff every result is valid. The message it leaves
    is that of the last object with a `message` among the results it
    examined: all of them, or those up to and including the first invalid one.
   */
  lemma {:induction false} EverySpec(rs: seq<RuleResult>, msg: JsValue)
    ensures EveryValid(rs, msg).0 <==> forall i :: 0 <= i < |rs| ==> IsValidResult(rs[i])
    ensures EveryValid(rs, msg).0 ==> EveryValid(rs, msg).1 == LastMessage(rs, msg)
    ensures !EveryValid(rs, msg).0 ==>
              FirstInvalid(rs) < |rs| && EveryValid(rs, msg).1 == LastMessage(rs[..FirstInvalid(rs) + 1], msg)
  {
    if rs != [] {
      VerdictIgnoresMessage(rs[0], msg, Null);
      var m := Normalise(rs[0], msg).1;
      assert LastMessage([rs[0]], msg) == m;
      EverySpec(rs[1..], m);
      if EveryValid(rs, msg).0 {
        assert rs == [rs[0]] + rs[1..];
        LastMessageAppend([rs[0]], rs[1..], msg);
      }
      if forall i :: 0 <= i < |rs| ==> IsValidResult(rs[i]) {
        assert forall i :: 0 <= i < |rs[1..]| ==> IsValidResult(rs[1..][i]) by {
          forall i | 0 <= i < |rs[1..]| ensures IsValidResult(rs[1..][i]) {
            assert rs[1..][i] == rs[i + 1];
          }
        }
      }
      if !IsValidResult(rs[0]) {
        assert rs[..1] == [rs[0]];
      } else if !EveryValid(rs, msg).0 {
        var k := FirstInvalid(rs[1..]);
        assert rs[..k + 2] == [rs[0]] + rs[1..][..k + 1];
        LastMessageAppend([rs[0]], rs[1..][..k + 1], msg);
      }
    }
  }

  /**
    A settled batch is valid iff every promise resolved to a result that
    normalises to valid; a rejection makes it invalid, and its message is
    used only when the rejection is an object with a truthy `message` and
    a `valid` property.
   */
  lemma AsyncVerdictSpec(b: Batch)
    ensures AsyncVerdict(b).0 <==> forall i :: 0 <= i < |b.promises| ==>
              b.promises[i].Resolved? && IsValidResult(b.promises[i].result)
    ensures AsyncVerdict(b).0 ==> AsyncVerdict(b).1 == LastMessage(ResolvedValues(b.promises), b.message)
    // every promise resolved, but `every` stopped at an invalid result
    ensures FirstRejection(b.promises).None? && !AsyncVerdict(b).0 ==>
              var rs := ResolvedValues(b.promises);
              FirstInvalid(rs) < |rs| && AsyncVerdict(b).1 == LastMessage(rs[..FirstInvalid(rs) + 1], b.message)
    ensures FirstRejection(b.promises).Some? ==>
              var reason := FirstRejection(b.promises).value;
              AsyncVerdict(b).1 == if reason.ErrorObject? && Truthy(reason.errMessage) && reason.hasValid
                                   then reason.errMessage else b.message
  {
    if FirstRejection(b.promises).None? {
      EverySpec(ResolvedValues(b.promises), b.message);
    }
  }

  /** A settlement as a promise can have it: never resolved to another thenable. */
  predicate SettlesCleanly(s: Settlement)
  {
    WellFormedResult(Promise(s))
  }

  /**
    `every(isValid)` walks the results without a TypeError: it never reaches
    a null result (`"message" in null` throws). Results after the first
    invalid one are never examined, so they may be anything.
   */
  predicate EveryWalksCleanly(rs: seq<RuleResult>)
  {
    rs == [] || (rs[0] != Plain(Null) && (IsValidResult(rs[0]) ==> EveryWalksCleanly(rs[1..])))
  }

  // ---------------------------------------------------------------------
  // The field.

  /** What `validate()` returns: a verdict now, or a batch still to settle. */
  datatype Verdict = Settled(valid: bool) | Deferred(batch: Batch)

  class Field {
    const name: string
    const errorMessage: JsValue
    const children: Option<seq<Child>>
    /** The enclosing form, whose context functions the field then uses. */
    const form: Form?

    var value: JsValue
    var valid: JsValue
    var message: JsValue
    var validating: JsValue

    /** `errorMessage` is a prop with a default: an undefined one reads as "Invalid data". */
    constructor (name: string, errorMessage: JsValue, children: Option<seq<Child>>, form: Form?)
      ensures this.name == name
      ensures this.errorMessage == if errorMessage.Undefined? then Str("Invalid data") else errorMessage
      ensures this.children == children && this.form == form
      ensures value == Null && valid == Null && message == Null && validating == Undefined
    {
      this.name := name;
      this.errorMessage := if errorMessage.Undefined? then Str("Invalid data") else errorMessage;
      this.children := children;
      this.form := form;
      value, valid, message, validating := Null, Null, Null, Undefined;
    }

    /** `getValue()` */
    function GetValue(): (v: JsValue)
      reads this, form
      ensures form == null ==> v == value
      ensures form != null ==> v == Lookup(form.state, name, "value")
    {
      if form != null then form.GetValue(name) else value
    }

    /** `isValid()` */
    function IsValid(): (v: JsValue)
      reads this, form
      ensures form == null ==> v == valid
      ensures form != null ==> v == Lookup(form.state, name, "valid")
    {
      if form != null then form.IsFieldValid(name) else valid
    }

    /** `error()` */
    function Error(): (v: JsValue)
      reads this, form
      ensures form == null ==> v == message
      ensures form != null ==> v == Lookup(form.state, name, "message")
    {
      if form != null then form.GetError(name) else message
    }

    /** `setValue(value)`: what is set is what `getValue()` then returns. */
    method SetValue(v: JsValue)
      requires form != null ==> form.Valid()
      modifies this, form
      ensures form == null ==> value == v
      ensures form != null ==> form.state == Write(old(form.state), name, map["value" := v]) &&
                               form.changes == old(form.changes) + 1 && value == old(value)
      ensures valid == old(valid) && message == old(message) && validating == old(validating)
      ensures GetValue() == v
      ensures form != null ==> form.Valid()
    {
      if form != null {
        form.SetValue(name, v);
      } else {
        value := v;
      }
    }

    /** The effect of `setValid(v, msg)` between two states. */
    twostate predicate ValidityStored(v: bool, msg: JsValue)
      reads this, form
    {
      && value == old(value)
      && (form == null ==> valid == Bool(v) && message == (if v then Null else msg))
      && (form != null ==>
            && form.state == Write(old(form.state), name, ValidityEntries(Bool(v), msg, Undefined))
            && form.changes == old(form.changes) + 1
            && valid == old(valid) && message == old(message))
    }

    /**
      `setValid(v, msg)`: locally the message is kept only for an invalid
      verdict; a form stores it whatever the verdict (and an undefined key).
     */
    method SetValid(v: bool, msg: JsValue)
      requires form != null ==> form.Valid()
      modifies this, form
      ensures ValidityStored(v, msg)
      ensures validating == old(validating)
      ensures IsValid() == Bool(v)
      ensures Error() == if form == null && v then Null else msg
      ensures form != null ==> form.Valid()
    {
      if form != null {
        form.SetFieldValid(name, Bool(v), msg, Undefined);
      } else {
        valid := Bool(v);
        message := if v then Null else msg;
      }
    }

    /**
      `validate()`: call the rules in order on the current value, setting
      promises aside and stopping at the first invalid synchronous result;
      then either record the verdict, or mark the field as validating and
      hand back the batch of promises. `invoked` is how many rules were called.
     */
    method Validate() returns (result: Verdict, ghost invoked: nat)
      requires form != null ==> form.Valid()
      requires var rs := ResultsFor(Rules(children), GetValue());
               forall i :: 0 <= i < |rs| && i < Scan(Start(errorMessage), rs).examined ==> WellFormedResult(rs[i])
      modifies this, form
      ensures var rs := ResultsFor(Rules(children), old(GetValue()));
              var q := Scan(Start(errorMessage), rs);
              && invoked == q.examined
              && match Decide(rs, errorMessage)
                 case Finish(ok, msg) =>
                   result == Settled(ok) && validating == Bool(false) && ValidityStored(ok, msg)
                 case Defer(batch) =>
                   && result == Deferred(batch) && validating == Bool(true)
                   && value == old(value) && valid == old(valid) && message == old(message)
                   && (form != null ==> unchanged(form))
      ensures form != null ==> form.Valid()
    {
      var v := GetValue();
      var rules := Rules(children);
      ghost var rs := ResultsFor(rules, v);
      var ok := true;
      var async := false;
      var msg := errorMessage;
      var promises: seq<Settlement> := [];
      var i := 0;
      while i < |rules|
        invariant 0 <= i <= |rules|
        invariant async <==> promises != []
        invariant Scan(Start(errorMessage), rs) == Scan(Pass(i, !ok, promises, msg), rs[i..])
        invariant !ok ==> i >= 1
        invariant value == old(value) && valid == old(valid) && message == old(message)
        invariant validating == old(validating) && (form != null ==> unchanged(form))
      {
        var r := rules[i].fn(RuleInput(rules[i], v));
        ScanUnfold(Pass(i, !ok, promises, msg), rs, i);
        i := i + 1;
        if r.Promise? {
          async := true;
          promises := promises + [r.settled];
        } else {
          var (valid', m) := Normalise(r, msg);
          msg := m;
          if !valid' {
            ok := false;
            break;
          }
        }
      }
      assert Scan(Pass(i, !ok, promises, msg), rs[i..]) == Pass(i, !ok, promises, msg);
      assert Decide(rs, errorMessage) ==
             if ok && promises != [] then Defer(Batch(promises, msg)) else Finish(ok, msg);
      invoked := i;
      if async && ok {
        validating := Bool(true);
        return Deferred(Batch(promises, msg)), invoked;
      }
      validating := Bool(false);
      SetValid(ok, msg);
      return Settled(ok), invoked;
    }

    /**
      The continuation run once the batch's promises have settled: the
      first rejection decides, otherwise every resolved result must
      normalise to valid; the verdict is then recorded.
     */
    method Settle(batch: Batch) returns (ok: bool)
      requires form != null ==> form.Valid()
      requires forall i :: 0 <= i < |batch.promises| ==> SettlesCleanly(batch.promises[i])
      requires FirstRejection(batch.promises).None? ==> EveryWalksCleanly(ResolvedValues(batch.promises))
      modifies this, form
      ensures ok == AsyncVerdict(batch).0
      ensures validating == Bool(false)
      ensures ValidityStored(ok, AsyncVerdict(batch).1)
      ensures form != null ==> form.Valid()
    {
      var msg := batch.message;
      var rejection := FirstRejection(batch.promises);
      if rejection.Some? {
        ok := false;
        msg := RejectionMessage(rejection.value, msg);
      } else {
        var results := ResolvedValues(batch.promises);
        ok := true;
        var i := 0;
        while i < |results|
          invariant 0 <= i <= |results|
          invariant ok && EveryValid(results, batch.message) == EveryValid(results[i..], msg)
        {
          assert results[i..] == [results[i]] + results[i + 1..];
          var (valid', m) := Normalise(results[i], msg);
          msg := m;
          if !valid' {
            ok := false;
            break;
          }
          i := i + 1;
        }
      }
      validating := Bool(false);
      SetValid(ok, msg);
    }
  }

  /** A field with no children: the rule extraction as written throws, while the intended one finds no rules. */
  lemma ChildlessRulesThrow()
    ensures RulesAsWritten(None) == None
    ensures Rules(None) == [] && Decide(ResultsFor(Rules(None), Null), Str("Invalid data")) == Finish(true, Str("Invalid data"))
  {
  }

  // ---------------------------------------------------------------------
  // Scenarios from test/FieldSpec.js (lines 47-180).

  /** An invalid rule before a valid one: only the first is called, and the field is invalid with the prop's message. */
  lemma InvalidStopsBeforeValid(errorMessage: JsValue)
    ensures var rs := [Plain(Bool(false)), Plain(Bool(true))];
            Scan(Start(errorMessage), rs).examined == 1 && Decide(rs, errorMessage) == Finish(false, errorMessage)
  {
    var rs := [Plain(Bool(false)), Plain(Bool(true))];
    assert Scan(Start(errorMessage), rs) == Scan(Step(Start(errorMessage), rs[0]), rs[1..]);
  }

  /** A promise resolving to false before a valid rule: both are called, and the settled batch is invalid. */
  lemma PromiseDoesNotStop(errorMessage: JsValue)
    ensures var p := Resolved(Plain(Bool(false)));
            var rs := [Promise(p), Plain(Bool(true))];
            && Scan(Start(errorMessage), rs).examined == 2
            && Decide(rs, errorMessage) == Defer(Batch([p], errorMessage))
            && AsyncVerdict(Batch([p], errorMessage)) == (false, errorMessage)
  {
    var p := Resolved(Plain(Bool(false)));
    var rs := [Promise(p), Plain(Bool(true))];
    var q1 := Step(Start(errorMessage), rs[0]);
    assert Scan(Start(errorMessage), rs) == Scan(q1, rs[1..]);
    assert Scan(q1, rs[1..]) == Scan(Step(q1, rs[1]), rs[1..][1..]);
    assert rs[1..][1..] == [];
    assert FirstRejection([p]) == None by {
      assert FirstRejection([p]) == FirstRejection([p][1..]) && [p][1..] == [];
    }
    assert ResolvedValues([p]) == [Plain(Bool(false))];
  }

  /** A rejection carrying `valid` and a message supplies the error; a thrown primitive keeps the prop's message. */
  lemma RejectionMessages(errorMessage: JsValue)
    ensures AsyncVerdict(Batch([Rejected(ErrorObject(Str("rejected"), true))], errorMessage)) == (false, Str("rejected"))
    ensures AsyncVerdict(Batch([Rejected(Thrown(Str("rejected")))], errorMessage)) == (false, errorMessage)
    ensures AsyncVerdict(Batch([Rejected(ErrorObject(Str("rejected"), false))], errorMessage)) == (false, errorMessage)
  {
  }
}
