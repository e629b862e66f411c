/**
  The form state store: one flat map from string keys to values, where the
  entry `attr` of the field `name` lives under the key `_field_<name>_<attr>`.
  Fields read and write through it; the form is valid when every `valid`
  entry is truthy, and `values()` decodes the field names back out of the
  `value` keys.
 */
module FormStore {
  import opened JsValues

  type State = map<string, JsValue>

  const Prefix: string := "_field_"

  /** The entries the form itself ever writes for a field; `reset` clears all four. */
  const Attrs: set<string> := {"value", "message", "valid", "error_key"}

  /** `_field_${name}_${attr}` */
  function Key(name: string, attr: string): string
  {
    Prefix + name + "_" + attr
  }

  /** The parts a key is made of, read back by position. */
  lemma KeyParts(name: string, attr: string)
    ensures var k := Key(name, attr);
            && |k| == |Prefix| + |name| + 1 + |attr|
            && k[..|Prefix|] == Prefix && k[|Prefix|..|Prefix| + |name|] == name
            && k[|Prefix| + |name|] == '_' && k[|Prefix| + |name| + 1..] == attr
  {
    var k := Key(name, attr);
    assert k == Prefix + name + "_" + attr;
  }

  // ---------------------------------------------------------------------
  // The two regular expressions. Without the `s` flag, `.` matches any
  // character except a line terminator, and `$` anchors at the very end.

  predicate IsLineTerminator(c: char)
  {
    c == '\n' || c == '\r' || c == '\U{2028}' || c == '\U{2029}'
  }

  predicate NoLineTerminator(s: string)
  {
    forall i :: 0 <= i < |s| ==> !IsLineTerminator(s[i])
  }

  /**
    `key.match(/^_field_(.*?)_value$/)`, giving the captured group. With
    the end anchor the lazy group can only be everything between the
    prefix and the suffix.
   */
  function MatchValueKey(k: string): Option<string>
  {
    if |k| >= 13 && k[..7] == Prefix && k[|k| - 6..] == "_value" && NoLineTerminator(k[7..|k| - 6])
    then Some(k[7..|k| - 6])
    else None
  }

  /** `/^_field_.*?_valid$/.test(key)` */
  predicate MatchesValidKey(k: string)
  {
    |k| >= 13 && k[..7] == Prefix && k[|k| - 6..] == "_valid" && NoLineTerminator(k[7..|k| - 6])
  }

  /** Decoding a `value` key recovers exactly the name it was encoded from. */
  lemma ValueKeyRoundTrip(name: string)
    ensures MatchValueKey(Key(name, "value")) == if NoLineTerminator(name) then Some(name) else None
  {
    var k := Key(name, "value");
    KeyParts(name, "value");
    assert k[7..|k| - 6] == name;
    assert k[|k| - 6..] == "_value";
  }

  /** Every key the matcher accepts is the `value` key of the name it captures. */
  lemma MatchValueKeyEncodes(k: string)
    requires MatchValueKey(k).Some?
    ensures k == Key(MatchValueKey(k).value, "value") && NoLineTerminator(MatchValueKey(k).value)
  {
    var n := MatchValueKey(k).value;
    KeyParts(n, "value");
    assert k == k[..7] + k[7..|k| - 6] + k[|k| - 6..];
  }

  /** Among the form's own entries, the validity matcher accepts only `valid` entries. */
  lemma ValidMatcherSeesOnlyValid(name: string, attr: string)
    requires attr in Attrs
    ensures MatchesValidKey(Key(name, attr)) <==> attr == "valid" && NoLineTerminator(name)
  {
    var k := Key(name, attr);
    KeyParts(name, attr);
    // the last character of `_valid` is 'd', and no other attribute ends in 'd'
    assert k[|k| - 1] == attr[|attr| - 1];
    assert MatchesValidKey(k) ==> k[|k| - 1] == "_valid"[5];
    if attr == "valid" {
      assert k[7..|k| - 6] == name;
      assert k[|k| - 6..] == "_valid";
    }
  }

  /** Keys of the form's own entries never collide across fields or attributes. */
  lemma KeyInjective(n1: string, a1: string, n2: string, a2: string)
    requires a1 in Attrs && a2 in Attrs
    requires Key(n1, a1) == Key(n2, a2)
    ensures n1 == n2 && a1 == a2
  {
    var k := Key(n1, a1);
    KeyParts(n1, a1);
    KeyParts(n2, a2);
    // the last two characters tell the four attributes apart
    assert k[|k| - 2..] == a1[|a1| - 2..];
    assert k[|k| - 2..] == a2[|a2| - 2..];
    assert a1 == a2;
    assert n1 == k[7..7 + |n1|] == n2;
  }

  // ---------------------------------------------------------------------
  // Specification functions over the state map.

  /** `getFieldState(name, attr)` for one attribute; an absent key reads as undefined. */
  function Lookup(s: State, name: string, attr: string): (v: JsValue)
    ensures Key(name, attr) in s ==> v == s[Key(name, attr)]
    ensures Key(name, attr) !in s ==> v == Undefined
  {
    Prop(s, Key(name, attr))
  }

  /** The attribute part of a key of the field `name`. */
  function AttrOf(name: string, k: string): string
    requires |k| >= |Prefix| + |name| + 1
  {
    k[|Prefix| + |name| + 1..]
  }

  lemma AttrOfKey(name: string, attr: string)
    ensures |Key(name, attr)| >= |Prefix| + |name| + 1 && AttrOf(name, Key(name, attr)) == attr
  {
    KeyParts(name, attr);
  }

  /** The keys `setFieldState(name, entries)` writes, for the attributes in `attrs`. */
  function EncodedKeys(name: string, entries: map<string, JsValue>, attrs: set<string>): set<string>
  {
    set a | a in attrs && a in entries :: Key(name, a)
  }

  lemma EncodedKeysDecode(name: string, entries: map<string, JsValue>, attrs: set<string>)
    ensures forall k :: k in EncodedKeys(name, entries, attrs) ==>
              |k| >= |Prefix| + |name| + 1 && AttrOf(name, k) in attrs && AttrOf(name, k) in entries &&
              k == Key(name, AttrOf(name, k))
  {
    forall k | k in EncodedKeys(name, entries, attrs)
      ensures |k| >= |Prefix| + |name| + 1 && AttrOf(name, k) in attrs && AttrOf(name, k) in entries
      ensures k == Key(name, AttrOf(name, k))
    {
      var a :| a in attrs && a in entries && k == Key(name, a);
      AttrOfKey(name, a);
    }
  }

  /** The entries `setFieldState(name, entries)` merges into the state. */
  function Encode(name: string, entries: map<string, JsValue>, attrs: set<string>): (e: State)
  {
    EncodedKeysDecode(name, entries, attrs);
    map k | k in EncodedKeys(name, entries, attrs) :: entries[AttrOf(name, k)]
  }

  /** State after `setFieldState(name, entries)`. */
  function Write(s: State, name: string, entries: map<string, JsValue>): (s': State)
  {
    s + Encode(name, entries, entries.Keys)
  }

  /** The encoded map holds exactly the listed attributes' keys, each with its entry. */
  lemma EncodeLookup(name: string, entries: map<string, JsValue>, attrs: set<string>, a: string)
    ensures Key(name, a) in Encode(name, entries, attrs) <==> a in attrs && a in entries
    ensures a in attrs && a in entries ==> Encode(name, entries, attrs)[Key(name, a)] == entries[a]
  {
    AttrOfKey(name, a);
    EncodedKeysDecode(name, entries, attrs);
  }

  /**
    A write touches the keys of its own field and no other: each written
    attribute reads back as written, the field's other attributes and
    every key outside the written ones keep their entries.
   */
  lemma WriteFrame(s: State, name: string, entries: map<string, JsValue>)
    ensures forall a :: a in entries ==> Lookup(Write(s, name, entries), name, a) == entries[a]
    ensures forall a :: a !in entries ==> Lookup(Write(s, name, entries), name, a) == Lookup(s, name, a)
    ensures forall k :: k !in EncodedKeys(name, entries, entries.Keys) ==>
              (k in Write(s, name, entries) <==> k in s) && (k in s ==> Write(s, name, entries)[k] == s[k])
    ensures Write(s, name, entries).Keys == s.Keys + EncodedKeys(name, entries, entries.Keys)
  {
    forall a
      ensures a in entries ==> Lookup(Write(s, name, entries), name, a) == entries[a]
      ensures a !in entries ==> Lookup(Write(s, name, entries), name, a) == Lookup(s, name, a)
    {
      EncodeLookup(name, entries, entries.Keys, a);
    }
  }

  /** Adding one attribute to the encoded ones adds exactly its key. */
  lemma EncodeAdd(name: string, entries: map<string, JsValue>, done: set<string>, a: string)
    requires a in entries
    ensures Encode(name, entries, done + {a}) == Encode(name, entries, done)[Key(name, a) := entries[a]]
  {
    var l := Encode(name, entries, done + {a});
    var r := Encode(name, entries, done)[Key(name, a) := entries[a]];
    EncodedKeysDecode(name, entries, done + {a});
    EncodedKeysDecode(name, entries, done);
    AttrOfKey(name, a);
    assert EncodedKeys(name, entries, done + {a}) == EncodedKeys(name, entries, done) + {Key(name, a)};
    assert l.Keys == r.Keys;
    forall k | k in l ensures l[k] == r[k] {
      if k != Key(name, a) {
        assert k in EncodedKeys(name, entries, done);
      }
    }
  }

  /** Entries of any other field are untouched by a write of the form's own attributes. */
  lemma WriteKeepsOtherFields(s: State, name: string, entries: map<string, JsValue>, other: string, attr: string)
    requires entries.Keys <= Attrs && attr in Attrs && other != name
    ensures Key(other, attr) in Write(s, name, entries) <==> Key(other, attr) in s
    ensures Lookup(Write(s, name, entries), other, attr) == Lookup(s, other, attr)
  {
    if Key(other, attr) in Encode(name, entries, entries.Keys) {
      var a :| a in entries && Key(other, attr) == Key(name, a);
      KeyInjective(other, attr, name, a);
    }
  }

  /** Entries a `register(name)` writes. */
  function RegisterEntries(): map<string, JsValue>
  {
    map["value" := Null, "message" := Null, "valid" := Null]
  }

  /** Entries a `setFieldValid(name, valid, message, error_key)` writes. */
  function ValidityEntries(valid: JsValue, message: JsValue, errorKey: JsValue): map<string, JsValue>
  {
    map["valid" := valid, "message" := message, "error_key" := errorKey]
  }

  /** `register` nulls three entries, even ones that already held a value: it is not idempotent on a set value. */
  lemma RegisterOverwrites(s: State, name: string, v: JsValue)
    ensures var s' := Write(Write(s, name, map["value" := v]), name, RegisterEntries());
            Lookup(s', name, "value") == Null && Lookup(s', name, "valid") == Null && Lookup(s', name, "message") == Null
    ensures Lookup(Write(s, name, RegisterEntries()), name, "error_key") == Lookup(s, name, "error_key")
  {
    var e := RegisterEntries();
    assert "value" in e && "valid" in e && "message" in e && "error_key" !in e;
    WriteFrame(Write(s, name, map["value" := v]), name, e);
    WriteFrame(s, name, e);
  }

  /** What `setFieldValid` stores is what the three getters return; the message is kept even when valid. */
  lemma ValidityReadBack(s: State, name: string, valid: JsValue, message: JsValue, errorKey: JsValue)
    ensures var s' := Write(s, name, ValidityEntries(valid, message, errorKey));
            Lookup(s', name, "valid") == valid && Lookup(s', name, "message") == message &&
            Lookup(s', name, "error_key") == errorKey && Lookup(s', name, "value") == Lookup(s, name, "value")
  {
    var e := ValidityEntries(valid, message, errorKey);
    assert e["valid"] == valid && e["message"] == message && e["error_key"] == errorKey && "value" !in e;
    WriteFrame(s, name, e);
  }

  /** `isValid()`: no entry matching the validity pattern is falsy. */
  predicate AllValid(s: State)
  {
    forall k :: k in s && MatchesValidKey(k) ==> Truthy(s[k])
  }

  /** A state made only of the form's own entries, as every state the form reaches through its operations is. */
  ghost predicate WellKeyed(s: State)
  {
    forall k :: k in s ==> exists n, a :: a in Attrs && k == Key(n, a)
  }

  /** A write of the form's own attributes keeps the state made of the form's own entries. */
  lemma WriteKeepsWellKeyed(s: State, name: string, entries: map<string, JsValue>)
    requires WellKeyed(s) && entries.Keys <= Attrs
    ensures WellKeyed(Write(s, name, entries))
  {
    EncodedKeysDecode(name, entries, entries.Keys);
    forall k | k in Write(s, name, entries) ensures exists n, a :: a in Attrs && k == Key(n, a) {
      if k in EncodedKeys(name, entries, entries.Keys) {
        var a := AttrOf(name, k);
        assert a in Attrs && k == Key(name, a);
      }
    }
  }

  /**
    `isValid()` in terms of fields: every field (with a name free of line
    terminators) whose `valid` entry exists has a truthy one.
   */
  lemma AllValidByField(s: State)
    requires WellKeyed(s)
    ensures AllValid(s) <==> forall n :: Key(n, "valid") in s && NoLineTerminator(n) ==> Truthy(s[Key(n, "valid")])
  {
    if !AllValid(s) {
      var k :| k in s && MatchesValidKey(k) && !Truthy(s[k]);
      var n, a :| a in Attrs && k == Key(n, a);
      ValidMatcherSeesOnlyValid(n, a);
    }
    if AllValid(s) {
      forall n | Key(n, "valid") in s && NoLineTerminator(n)
        ensures Truthy(s[Key(n, "valid")])
      {
        ValidMatcherSeesOnlyValid(n, "valid");
      }
    }
  }

  /** A registered field that was never validated holds `valid: null` and makes the form invalid. */
  lemma RegisteredUnvalidatedIsInvalid(s: State, name: string)
    requires NoLineTerminator(name)
    ensures !AllValid(Write(s, name, RegisterEntries()))
  {
    var s' := Write(s, name, RegisterEntries());
    WriteFrame(s, name, RegisterEntries());
    ValidMatcherSeesOnlyValid(name, "valid");
    assert Key(name, "valid") in s' && MatchesValidKey(Key(name, "valid")) && !Truthy(s'[Key(name, "valid")]);
  }

  /** Writing a field's `value`, `message` or `error_key` entry never changes `isValid()`. */
  lemma AllValidIgnoresOtherEntries(s: State, name: string, attr: string, v: JsValue)
    requires attr in Attrs && attr != "valid"
    ensures AllValid(s[Key(name, attr) := v]) == AllValid(s)
  {
    ValidMatcherSeesOnlyValid(name, attr);
    var s' := s[Key(name, attr) := v];
    if AllValid(s) {
      forall k | k in s' && MatchesValidKey(k) ensures Truthy(s'[k]) {
        assert k != Key(name, attr);
      }
    }
    if AllValid(s') {
      forall k | k in s && MatchesValidKey(k) ensures Truthy(s[k]) {
        assert k != Key(name, attr);
        assert s'[k] == s[k];
      }
    }
  }

  /** The names captured from some `value` key by `/^_field_(.*?)_value$/`. */
  function ValueNames(s: State): set<string>
  {
    set k | k in s && MatchValueKey(k).Some? :: MatchValueKey(k).value
  }

  /** A name is captured exactly when its `value` key is present and the name has no line terminator. */
  lemma ValueNamesSpec(s: State, name: string)
    ensures name in ValueNames(s) <==> Key(name, "value") in s && NoLineTerminator(name)
  {
    if name in ValueNames(s) {
      var k :| k in s && MatchValueKey(k).Some? && MatchValueKey(k).value == name;
      MatchValueKeyEncodes(k);
    }
    if Key(name, "value") in s && NoLineTerminator(name) {
      ValueKeyRoundTrip(name);
      assert MatchValueKey(Key(name, "value")) == Some(name);
    }
  }

  /**
    The one property name that an object created as `{}` does not store as
    an own property on assignment: it reaches the `__proto__` setter
    inherited from `Object.prototype`.
   */
  const ProtoName: string := "__proto__"

  /**
    `obj[name] = v` on an object created as `{}`, where `inherits` says
    whether the object still inherits `Object.prototype`. While it does,
    `__proto__` goes to the inherited setter: no own property is created, a
    null value empties the prototype chain and any other primitive is
    ignored. After that `__proto__` is an ordinary name.
   */
  function Assign(obj: map<string, JsValue>, inherits: bool, name: string, v: JsValue): (r: (map<string, JsValue>, bool))
    ensures r.0.Keys == if name == ProtoName && inherits then obj.Keys else obj.Keys + {name}
    ensures name in r.0 && (name != ProtoName || !inherits) ==> r.0[name] == v
    ensures forall n :: n in obj && n != name ==> r.0[n] == obj[n]
    ensures r.1 <==> inherits && (name != ProtoName || !v.Null?)
  {
    if name == ProtoName && inherits then (obj, !v.Null?) else (obj[name := v], inherits)
  }

  /**
    `values()` without an array: each captured name mapped to its `value`
    entry, except `__proto__`. Only one key captures that name, so its
    assignment always reaches the inherited setter and adds no own property.
   */
  function ValueMap(s: State): map<string, JsValue>
  {
    map n | n in ValueNames(s) && n != ProtoName :: Lookup(s, n, "value")
  }

  /**
    A name is reported exactly when its `value` key is present, the name has
    no line terminator and it is not `__proto__`.
   */
  lemma ValueMapSpec(s: State, name: string)
    ensures name in ValueMap(s) <==> Key(name, "value") in s && NoLineTerminator(name) && name != ProtoName
    ensures name in ValueMap(s) ==> ValueMap(s)[name] == s[Key(name, "value")]
  {
    ValueNamesSpec(s, name);
  }

  /**
    Whether `getFieldState(name, attrs)` ends with an own `__proto__`: the
    entry is null, so the first `__proto__` empties the prototype chain, and
    a later `__proto__` is then stored as an own property.
   */
  predicate ProtoOwned(s: State, name: string, attrs: seq<string>)
  {
    Lookup(s, name, ProtoName) == Null && multiset(attrs)[ProtoName] >= 2
  }

  /** The names whose entries `reset(except)` clears. */
  function ResetNames(s: State, except: seq<string>): set<string>
  {
    set n | n in ValueNames(s) && n !in except
  }

  /** The keys of the given fields' four resettable entries. */
  function FieldKeys(names: set<string>): set<string>
  {
    set n, a | n in names && a in Attrs :: Key(n, a)
  }

  function Nulls(keys: set<string>): State
  {
    map k | k in keys :: Null
  }

  /** State after `reset(except)`. */
  function ResetState(s: State, except: seq<string>): State
  {
    s + Nulls(FieldKeys(ResetNames(s, except)))
  }

  /**
    `reset(except)` clears the four entries of every field that has a
    `value` entry and is not excepted, and touches nothing else; in
    particular every entry of an excepted field is kept.
   */
  lemma ResetSpec(s: State, except: seq<string>, name: string, attr: string)
    requires attr in Attrs
    ensures Key(name, "value") in s && NoLineTerminator(name) && name !in except ==>
              Lookup(ResetState(s, except), name, attr) == Null
    ensures name in except ==> Lookup(ResetState(s, except), name, attr) == Lookup(s, name, attr)
    ensures forall k :: k !in FieldKeys(ResetNames(s, except)) ==>
              (k in ResetState(s, except) <==> k in s) && (k in s ==> ResetState(s, except)[k] == s[k])
  {
    ValueNamesSpec(s, name);
    if name in except && Key(name, attr) in FieldKeys(ResetNames(s, except)) {
      var n, a :| n in ResetNames(s, except) && a in Attrs && Key(name, attr) == Key(n, a);
      KeyInjective(name, attr, n, a);
      assert false;
    }
    if Key(name, "value") in s && NoLineTerminator(name) && name !in except {
      assert name in ResetNames(s, except);
      assert Key(name, attr) in FieldKeys(ResetNames(s, except));
    }
  }

  /** `reset` adds only the form's own entries. */
  lemma ResetKeepsWellKeyed(s: State, except: seq<string>)
    requires WellKeyed(s)
    ensures WellKeyed(ResetState(s, except))
  {
    forall k | k in ResetState(s, except) ensures exists n, a :: a in Attrs && k == Key(n, a) {
      if k in FieldKeys(ResetNames(s, except)) {
        var n, a :| n in ResetNames(s, except) && a in Attrs && k == Key(n, a);
      }
    }
  }

  datatype ValuesResult =
    | Every(allValid: bool)              // `values(fields)` with an array
    | Data(data: map<string, JsValue>)   // `values()`

  /**
    The form: its state map and the number of times it has called its
    `onChange` prop (the callback itself is the consumer's).
   */
  class Form {
    var state: State
    var changes: nat

    /** Every key is one the form writes for some field. */
    ghost predicate Valid()
      reads this
    {
      WellKeyed(state)
    }

    constructor ()
      ensures state == map[] && changes == 0
      ensures Valid()
    {
      state := map[];
      changes := 0;
    }

    /** `setFieldState(name, entries)`: merge the field's encoded entries, then notify once. */
    method SetFieldState(name: string, entries: map<string, JsValue>)
      modifies this
      ensures state == Write(old(state), name, entries)
      ensures changes == old(changes) + 1
    {
      var newState: State := map[];
      var todo := entries.Keys;
      while todo != {}
        invariant todo <= entries.Keys
        invariant state == old(state) && changes == old(changes)
        invariant newState == Encode(name, entries, entries.Keys - todo)
        decreases todo
      {
        var a :| a in todo;
        ghost var done := entries.Keys - todo;
        newState := newState[Key(name, a) := entries[a]];
        todo := todo - {a};
        EncodeAdd(name, entries, done, a);
        assert entries.Keys - todo == done + {a};
      }
      assert entries.Keys - todo == entries.Keys;
      state := state + newState;
      changes := changes + 1;
    }

    /** `getFieldState(name, attr)` */
    function GetFieldState(name: string, attr: string): (v: JsValue)
      reads this
      ensures v == Lookup(state, name, attr)
    {
      Prop(state, Key(name, attr))
    }

    /**
      `getFieldState(name, attrs)` with an array: an object of the listed
      entries. The attribute `__proto__` reaches the inherited setter and is
      not an own key, unless an earlier `__proto__` with a null entry has
      already emptied the prototype chain.
     */
    method GetFieldStates(name: string, attrs: seq<string>) returns (r: map<string, JsValue>)
      ensures r.Keys == (set a | a in attrs && a != ProtoName) + (if ProtoOwned(state, name, attrs) then {ProtoName} else {})
      ensures forall a :: a in r ==> r[a] == Lookup(state, name, a)
    {
      r := map[];
      var inherits := true;
      for i := 0 to |attrs|
        invariant r.Keys == (set a | a in attrs[..i] && a != ProtoName) + (if ProtoOwned(state, name, attrs[..i]) then {ProtoName} else {})
        invariant inherits <==> !(Lookup(state, name, ProtoName) == Null && ProtoName in attrs[..i])
        invariant forall a :: a in r ==> r[a] == Lookup(state, name, a)
      {
        assert attrs[..i + 1] == attrs[..i] + [attrs[i]];
        var p := Assign(r, inherits, attrs[i], GetFieldState(name, attrs[i]));
        r, inherits := p.0, p.1;
      }
      assert attrs[..|attrs|] == attrs;
    }

    /** `reset(except)`: clear every non-excepted field; `onChange` is not called. */
    method Reset(except: seq<string>)
      modifies this
      ensures state == ResetState(old(state), except)
      ensures changes == old(changes)
      requires Valid()
      ensures Valid()
    {
      var nextState: State := map[];
      var todo := state.Keys;
      while todo != {}
        invariant todo <= state.Keys
        invariant state == old(state) && changes == old(changes)
        invariant nextState == Nulls(FieldKeys(ResetNames(state - todo, except)))
        decreases todo
      {
        var k :| k in todo;
        ghost var before := state - todo;
        todo := todo - {k};
        var matches := MatchValueKey(k);
        if matches.Some? && matches.value !in except {
          var n := matches.value;
          nextState := nextState[Key(n, "value") := Null][Key(n, "valid") := Null]
                                [Key(n, "message") := Null][Key(n, "error_key") := Null];
          ResetStep(before, k, state[k], except);
        } else {
          ResetSkip(before, k, state[k], except);
        }
        assert state - todo == before[k := state[k]];
      }
      assert state - todo == state;
      state := state + nextState;
      ResetKeepsWellKeyed(old(state), except);
    }

    /** `register(name)` */
    method Register(name: string)
      modifies this
      ensures state == Write(old(state), name, RegisterEntries())
      ensures changes == old(changes) + 1
      requires Valid()
      ensures Valid()
    {
      SetFieldState(name, RegisterEntries());
      WriteKeepsWellKeyed(old(state), name, RegisterEntries());
    }

    /** `setValue(name, value)` */
    method SetValue(name: string, value: JsValue)
      modifies this
      ensures state == Write(old(state), name, map["value" := value])
      ensures GetValue(name) == value
      ensures changes == old(changes) + 1
      requires Valid()
      ensures Valid()
    {
      SetFieldState(name, map["value" := value]);
      assert "value" in map["value" := value];
      WriteFrame(old(state), name, map["value" := value]);
      WriteKeepsWellKeyed(old(state), name, map["value" := value]);
    }

    /** `getValue(name)` */
    function GetValue(name: string): (v: JsValue)
      reads this
      ensures v == Lookup(state, name, "value")
    {
      GetFieldState(name, "value")
    }

    /** `isFieldValid(name)` */
    function IsFieldValid(name: string): (v: JsValue)
      reads this
      ensures v == Lookup(state, name, "valid")
    {
      GetFieldState(name, "valid")
    }

    /** `getError(name)` */
    function GetError(name: string): (v: JsValue)
      reads this
      ensures v == Lookup(state, name, "message")
    {
      GetFieldState(name, "message")
    }

    /** `getErrorKey(name)` */
    function GetErrorKey(name: string): (v: JsValue)
      reads this
      ensures v == Lookup(state, name, "error_key")
    {
      GetFieldState(name, "error_key")
    }

    /** `setFieldValid(name, valid, message, error_key)`: the message is stored whatever `valid` is. */
    method SetFieldValid(name: string, valid: JsValue, message: JsValue, errorKey: JsValue)
      modifies this
      ensures state == Write(old(state), name, ValidityEntries(valid, message, errorKey))
      ensures IsFieldValid(name) == valid && GetError(name) == message && GetErrorKey(name) == errorKey
      ensures changes == old(changes) + 1
      requires Valid()
      ensures Valid()
    {
      SetFieldState(name, ValidityEntries(valid, message, errorKey));
      ValidityReadBack(old(state), name, valid, message, errorKey);
      WriteKeepsWellKeyed(old(state), name, ValidityEntries(valid, message, errorKey));
    }

    /** `isValid()`: stops at the first falsy entry that matches the validity pattern. */
    method IsValid() returns (ok: bool)
      ensures ok == AllValid(state)
      // on a form reached through its own operations: every existing `valid` entry is truthy
      ensures Valid() ==>
                (ok <==> forall n :: Key(n, "valid") in state && NoLineTerminator(n) ==> Truthy(state[Key(n, "valid")]))
    {
      if Valid() {
        AllValidByField(state);
      }
      var todo := state.Keys;
      while todo != {}
        invariant todo <= state.Keys
        invariant forall k :: k in state && k !in todo && MatchesValidKey(k) ==> Truthy(state[k])
        decreases todo
      {
        var k :| k in todo;
        if MatchesValidKey(k) && !Truthy(state[k]) {
          return false;
        }
        todo := todo - {k};
      }
      return true;
    }

    /**
      `values(fields)`: with an array, whether every listed field's `valid`
      entry is truthy; otherwise the name-to-value object.
     */
    method Values(fields: Option<seq<string>>) returns (r: ValuesResult)
      ensures fields.Some? ==> r == Every(forall i :: 0 <= i < |fields.value| ==> Truthy(IsFieldValid(fields.value[i])))
      ensures fields.None? ==> r == Data(ValueMap(state))
    {
      if fields.Some? {
        return Every(forall i :: 0 <= i < |fields.value| ==> Truthy(IsFieldValid(fields.value[i])));
      }
      var data: map<string, JsValue> := map[];
      var inherits := true;
      var todo := state.Keys;
      while todo != {}
        invariant todo <= state.Keys
        invariant data == ValueMap(state - todo)
        invariant !inherits ==> Key(ProtoName, "value") !in todo
        decreases todo
      {
        var k :| k in todo;
        ghost var before := state - todo;
        todo := todo - {k};
        var matches := MatchValueKey(k);
        if matches.Some? {
          if matches.value == ProtoName {
            MatchValueKeyEncodes(k);
          }
          var p := Assign(data, inherits, matches.value, state[k]);
          data, inherits := p.0, p.1;
        }
        ValuesStep(before, k, state[k]);
        assert state - todo == before[k := state[k]];
      }
      assert state - todo == state;
      return Data(data);
    }

    /** `handleSubmit`: the data handed to `onSubmit`, if it is called at all. */
    method HandleSubmit(submitOnInvalid: bool, hasOnSubmit: bool) returns (submitted: Option<map<string, JsValue>>)
      ensures submitted.Some? <==> (submitOnInvalid || AllValid(state)) && hasOnSubmit
      ensures submitted.Some? ==> submitted.value == ValueMap(state)
    {
      var go := submitOnInvalid;
      if !go {
        go := IsValid();
      }
      if go && hasOnSubmit {
        var r := Values(None);
        return Some(r.data);
      }
      return None;
    }
  }

  /** Adding a key captures at most its decoded name. */
  lemma ValueNamesStep(s: State, k: string, v: JsValue)
    requires k !in s
    ensures ValueNames(s[k := v]) == if MatchValueKey(k).Some? then ValueNames(s) + {MatchValueKey(k).value} else ValueNames(s)
  {
    var s' := s[k := v];
    if MatchValueKey(k).Some? {
      MatchValueKeyEncodes(k);
      forall m ensures m in ValueNames(s') <==> m in ValueNames(s) + {MatchValueKey(k).value} {
        ValueNamesSpec(s', m);
        ValueNamesSpec(s, m);
      }
    } else {
      forall m ensures m in ValueNames(s') <==> m in ValueNames(s) {
        ValueNamesSpec(s', m);
        ValueNamesSpec(s, m);
        if m in ValueNames(s') && m !in ValueNames(s) {
          ValueKeyRoundTrip(m);
        }
      }
    }
  }

  /**
    One step of `values()`: adding a key adds at most its decoded name, and
    nothing when that name is `__proto__`.
   */
  lemma ValuesStep(s: State, k: string, v: JsValue)
    requires k !in s
    ensures ValueMap(s[k := v]) ==
            if MatchValueKey(k).Some? && MatchValueKey(k).value != ProtoName
            then ValueMap(s)[MatchValueKey(k).value := v] else ValueMap(s)
  {
    var s' := s[k := v];
    ValueNamesStep(s, k, v);
    if MatchValueKey(k).Some? {
      MatchValueKeyEncodes(k);
    }
    forall m | m in ValueMap(s') && (MatchValueKey(k).None? || m != MatchValueKey(k).value)
      ensures ValueMap(s')[m] == ValueMap(s)[m]
    {
      ValueMapSpec(s', m);
      ValueKeyRoundTrip(m);
    }
  }

  /** One step of `reset` over a key the matcher accepts and that is not excepted. */
  lemma ResetStep(s: State, k: string, v: JsValue, except: seq<string>)
    requires k !in s && MatchValueKey(k).Some? && MatchValueKey(k).value !in except
    ensures var n := MatchValueKey(k).value;
            Nulls(FieldKeys(ResetNames(s[k := v], except))) ==
            Nulls(FieldKeys(ResetNames(s, except)))[Key(n, "value") := Null][Key(n, "valid") := Null]
                                                   [Key(n, "message") := Null][Key(n, "error_key") := Null]
  {
    var n := MatchValueKey(k).value;
    ValueNamesStep(s, k, v);
    assert ResetNames(s[k := v], except) == ResetNames(s, except) + {n};
    assert FieldKeys(ResetNames(s[k := v], except)) ==
           FieldKeys(ResetNames(s, except)) + {Key(n, "value"), Key(n, "valid"), Key(n, "message"), Key(n, "error_key")};
  }

  /** One step of `reset` over a key that is skipped. */
  lemma ResetSkip(s: State, k: string, v: JsValue, except: seq<string>)
    requires k !in s && (MatchValueKey(k).Some? ==> MatchValueKey(k).value in except)
    ensures Nulls(FieldKeys(ResetNames(s[k := v], except))) == Nulls(FieldKeys(ResetNames(s, except)))
  {
    ValueNamesStep(s, k, v);
    assert ResetNames(s[k := v], except) == ResetNames(s, except);
  }
}
