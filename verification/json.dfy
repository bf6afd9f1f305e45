/**
 * The JSON validation rules of json.hpp and impl/json.cpp: checks on a
 * parsed value that either hand the value back or raise a typed error
 * carrying what was expected and what was found, and the array walk that
 * logs and skips elements whose rule fails.
 *
 * A jsoncpp value is the datatype `Value`; its `size()` is the element
 * count of an array, the member count of an object and 0 otherwise. A
 * raised exception is the `Failure` of a `Result`.
 */
module JsonRules {
  import opened Wrappers

  /** `Json::ValueType`. */
  datatype ValueType =
    | NullValue | IntValue | UIntValue | RealValue | StringValue | BooleanValue | ArrayValue | ObjectValue

  type Int64 = x: int | -0x8000_0000_0000_0000 <= x < 0x8000_0000_0000_0000
  type UInt64 = x: int | 0 <= x < 0x1_0000_0000_0000_0000

  /** A parsed value; the rules never look inside a floating-point number. */
  datatype Value =
    | Null
    | Int(i: Int64)
    | UInt(u: UInt64)
    | Real
    | Str(s: string)
    | Bool(b: bool)
    | Arr(elems: seq<Value>)
    | Obj(members: map<string, Value>)

  /** `Json::Value::type()`. */
  function TypeOf(v: Value): (r: ValueType)
    ensures r == ArrayValue <==> v.Arr?
    ensures r == ObjectValue <==> v.Obj?
    ensures r == StringValue <==> v.Str?
  {
    match v
    case Null => NullValue
    case Int(_) => IntValue
    case UInt(_) => UIntValue
    case Real => RealValue
    case Str(_) => StringValue
    case Bool(_) => BooleanValue
    case Arr(_) => ArrayValue
    case Obj(_) => ObjectValue
  }

  /** `Json::Value::size()`: elements of an array, members of an object, otherwise 0. */
  function Size(v: Value): (r: nat)
    ensures v.Arr? ==> r == |v.elems|
    ensures v.Obj? ==> r == |v.members|
    ensures !v.Arr? && !v.Obj? ==> r == 0
  {
    match v
    case Arr(elems) => |elems|
    case Obj(members) => |members|
    case _ => 0
  }

  // ---------------------------------------------------------------------------
  // type_info
  // ---------------------------------------------------------------------------

  /** `type_info`: a value type carried by an error. */
  datatype TypeInfo = TypeInfo(vtype: ValueType)

  /** `type_info::operator==`. */
  predicate TypeInfoEqual(a: TypeInfo, b: TypeInfo) {
    a.vtype == b.vtype
  }

  /** `type_info::operator!=`, written independently of `==` as in the source. */
  predicate TypeInfoNotEqual(a: TypeInfo, b: TypeInfo) {
    a.vtype != b.vtype
  }

  /** `==` is type equality and `!=` is its negation. */
  lemma TypeInfoComparisons(a: TypeInfo, b: TypeInfo)
    ensures TypeInfoEqual(a, b) <==> a == b
    ensures TypeInfoNotEqual(a, b) <==> !TypeInfoEqual(a, b)
  {
  }

  /** `type_info::to_string`: the name printed for each value type. */
  function TypeName(t: TypeInfo): (r: string)
    ensures |r| > 0
    ensures r == "null" <==> t.vtype == NullValue
    ensures r == "signed" <==> t.vtype == IntValue
    ensures r == "unsigned" <==> t.vtype == UIntValue
    ensures r == "float" <==> t.vtype == RealValue
    ensures r == "string" <==> t.vtype == StringValue
    ensures r == "bool" <==> t.vtype == BooleanValue
    ensures r == "array" <==> t.vtype == ArrayValue
    ensures r == "object" <==> t.vtype == ObjectValue
  {
    match t.vtype
    case NullValue => "null"
    case IntValue => "signed"
    case UIntValue => "unsigned"
    case RealValue => "float"
    case StringValue => "string"
    case BooleanValue => "bool"
    case ArrayValue => "array"
    case ObjectValue => "object"
  }

  /** Different types print differently, so a printed error names its types unambiguously. */
  lemma TypeNamesDistinct(a: TypeInfo, b: TypeInfo)
    requires a.vtype != b.vtype
    ensures TypeName(a) != TypeName(b)
  {
  }

  // ---------------------------------------------------------------------------
  // Errors
  // ---------------------------------------------------------------------------

  /** `info_index`: a position in an array or a member name. */
  datatype Index = Position(n: nat) | Name(name: string)

  /**
   * What was raised: one of the `json::error` kinds with its information,
   * or an exception that is not a `json::error::base`.
   */
  datatype ErrorKind =
    | BadType(expected: TypeInfo, actual: TypeInfo)
    | BadSize(min: nat, max: nat, size: nat)
    | BadIndex(index: Index)
    | Foreign

  /** An exception with its optional `info_rule_trace`. */
  datatype Error = Error(kind: ErrorKind, trace: Option<seq<string>>)

  /** Whether a handler for `json::error::base` catches it. */
  predicate IsJsonError(e: Error) {
    !e.kind.Foreign?
  }

  function Raise(kind: ErrorKind): Error {
    Error(kind, None)
  }

  /** `make_bad_type`. */
  function BadTypeError(expected: ValueType, v: Value): Error {
    Raise(BadType(TypeInfo(expected), TypeInfo(TypeOf(v))))
  }

  /**
   * `add_rule_exception_info`: the rule goes at the end of the error's
   * trace, which is created as `[rule]` when the error has none; the
   * error itself is unchanged.
   */
  function AddRuleInfo(e: Error, rule: string): (r: Error)
    ensures r.kind == e.kind && r.trace.Some?
    ensures e.trace.Some? ==> r.trace.value == e.trace.value + [rule]
    ensures e.trace.None? ==> r.trace.value == [rule]
  {
    match e.trace
    case Some(rules) => Error(e.kind, Some(rules + [rule]))
    case None => Error(e.kind, Some([rule]))
  }

  /** The rules added one after another form the trace, oldest first. */
  lemma {:induction false} TraceRecordsRules(e: Error, rules: seq<string>)
    requires e.trace.None? && |rules| > 0
    ensures AddRules(e, rules).trace == Some(rules)
  {
    if |rules| == 1 {
      assert rules[..0] == [] && AddRules(e, rules[..0]) == e;
      assert [rules[0]] == rules;
    } else {
      TraceRecordsRules(e, rules[..|rules| - 1]);
      assert rules[..|rules| - 1] + [rules[|rules| - 1]] == rules;
    }
  }

  /** `rules` added to `e` in order. */
  function AddRules(e: Error, rules: seq<string>): Error {
    if rules == [] then e else AddRuleInfo(AddRules(e, rules[..|rules| - 1]), rules[|rules| - 1])
  }

  // ---------------------------------------------------------------------------
  // The rules
  // ---------------------------------------------------------------------------

  /**
   * `require_size(json, min, max)`: bad_size carrying `(min, max)` and the
   * actual size when the size is below `min` or, for a non-zero `max`,
   * above it; otherwise the value itself.
   */
  function RequireSize(v: Value, min: nat, max: nat): (r: Result<Value, Error>)
    ensures r.Failure? <==> Size(v) < min || (max > 0 && Size(v) > max)
    ensures r.Success? ==> r.value == v
    ensures r.Failure? ==> r.error == Raise(BadSize(min, max, Size(v)))
  {
    if Size(v) < min || (max > 0 && Size(v) > max) then Failure(Raise(BadSize(min, max, Size(v))))
    else Success(v)
  }

  /** A `max` of 0 sets no upper bound. */
  lemma ZeroMaxIsUnbounded(v: Value, min: nat)
    requires Size(v) >= min
    ensures RequireSize(v, min, 0) == Success(v)
  {
  }

  /** `require_array`: the value if it is an array, else bad_type (expected array, actual its type). */
  function RequireArray(v: Value): (r: Result<Value, Error>)
    ensures r.Success? <==> v.Arr?
    ensures r.Success? ==> r.value == v
    ensures r.Failure? ==> r.error.kind == BadType(TypeInfo(ArrayValue), TypeInfo(TypeOf(v))) && r.error.trace.None?
  {
    if v.Arr? then Success(v) else Failure(BadTypeError(ArrayValue, v))
  }

  /** `require_object`: the value if it is an object, else bad_type (expected object, actual its type). */
  function RequireObject(v: Value): (r: Result<Value, Error>)
    ensures r.Success? <==> v.Obj?
    ensures r.Success? ==> r.value == v
    ensures r.Failure? ==> r.error.kind == BadType(TypeInfo(ObjectValue), TypeInfo(TypeOf(v))) && r.error.trace.None?
  {
    if v.Obj? then Success(v) else Failure(BadTypeError(ObjectValue, v))
  }

  /**
   * `require_key(json, index)` as written: the guard is `size >= index`, so
   * an index equal to the size passes and yields jsoncpp's null value.
   */
  function RequireKeyAt(v: Value, index: nat): (r: Result<Value, Error>)
    requires v.Arr?
    ensures r.Success? <==> index <= |v.elems|
    ensures index < |v.elems| ==> r == Success(v.elems[index])
    ensures index == |v.elems| ==> r == Success(Null)
    ensures r.Failure? ==> r.error == Raise(BadIndex(Position(index)))
  {
    if Size(v) >= index then Success(if index < |v.elems| then v.elems[index] else Null)
    else Failure(Raise(BadIndex(Position(index))))
  }

  /** The guard lets the one-past-the-end index through: `[]` at 0 gives null instead of bad_index. */
  lemma RequireKeyAtAcceptsEnd()
    ensures RequireKeyAt(Arr([]), 0) == Success(Null)
    ensures RequireKeyAt(Arr([Int(7)]), 1) == Success(Null)
  {
  }

  /** `require_key(json, index)` as documented: bad_index for every index that is not a position. */
  function RequireElement(v: Value, index: nat): (r: Result<Value, Error>)
    requires v.Arr?
    ensures r.Success? <==> index < |v.elems|
    ensures r.Success? ==> r.value == v.elems[index] && r.value in v.elems
    ensures r.Failure? ==> r.error == Raise(BadIndex(Position(index)))
  {
    if index < Size(v) then Success(v.elems[index]) else Failure(Raise(BadIndex(Position(index))))
  }

  /** The two readings agree on every index except the size itself. */
  lemma RequireKeyAtMatchesBelowSize(v: Value, index: nat)
    requires v.Arr? && index != |v.elems|
    ensures RequireKeyAt(v, index) == RequireElement(v, index)
  {
  }

  /**
   * `require_key(json, name)`: the member if the object has it, otherwise
   * bad_index carrying the name.
   */
  function RequireKeyNamed(v: Value, name: string): (r: Result<Value, Error>)
    requires v.Obj?
    ensures r.Success? <==> name in v.members
    ensures r.Success? ==> r.value == v.members[name]
    ensures r.Failure? ==> r.error == Raise(BadIndex(Name(name)))
  {
    if name in v.members then Success(v.members[name]) else Failure(Raise(BadIndex(Name(name))))
  }

  /** `require_string`: the text if the value is a string, else bad_type (expected string). */
  function RequireString(v: Value): (r: Result<string, Error>)
    ensures r.Success? <==> v.Str?
    ensures r.Success? ==> r.value == v.s
    ensures r.Failure? ==> r.error.kind == BadType(TypeInfo(StringValue), TypeInfo(TypeOf(v)))
  {
    if v.Str? then Success(v.s) else Failure(BadTypeError(StringValue, v))
  }

  /** `Json::Value::isIntegral()`: a signed or unsigned integer. */
  predicate IsIntegral(v: Value) {
    v.Int? || v.UInt?
  }

  const INT_MIN: int := -0x8000_0000
  const INT_MAX: int := 0x7FFF_FFFF

  /**
   * `require_int`: the number if the value is integral, else bad_type
   * (expected signed). A number outside `int`'s range makes jsoncpp's
   * `asInt` raise an exception that is not a `json::error`.
   */
  function RequireInt(v: Value): (r: Result<int, Error>)
    ensures r.Success? ==> IsIntegral(v) && INT_MIN <= r.value <= INT_MAX
    ensures r.Success? && v.Int? ==> r.value == v.i
    ensures r.Success? && v.UInt? ==> r.value == v.u
    ensures !IsIntegral(v) ==> r.Failure? && r.error.kind == BadType(TypeInfo(IntValue), TypeInfo(TypeOf(v)))
    ensures IsIntegral(v) && r.Failure? ==> !IsJsonError(r.error)
    ensures v.Int? && INT_MIN <= v.i <= INT_MAX ==> r == Success(v.i)
    ensures v.UInt? && v.u <= INT_MAX ==> r == Success(v.u)
  {
    match v
    case Int(i) => if INT_MIN <= i <= INT_MAX then Success(i) else Failure(Raise(Foreign))
    case UInt(u) => if u <= INT_MAX then Success(u) else Failure(Raise(Foreign))
    case _ => Failure(BadTypeError(IntValue, v))
  }

  /** `optional_key(json, index)`: element `index` when it exists, otherwise null. */
  function OptionalKey(v: Value, index: nat): (r: Value)
    requires v.Arr?
    ensures index < |v.elems| ==> r == v.elems[index]
    ensures index >= |v.elems| ==> r == Null
  {
    if index < Size(v) then v.elems[index] else Null
  }

  /** Where an element exists, the optional and the required lookups agree. */
  lemma OptionalKeyAgreesWithRequire(v: Value, index: nat)
    requires v.Arr?
    ensures RequireElement(v, index).Success? ==> OptionalKey(v, index) == RequireElement(v, index).value
    ensures RequireElement(v, index).Failure? ==> OptionalKey(v, index) == Null
  {
  }

  // ---------------------------------------------------------------------------
  // for_each_element_skip_on_fail
  // ---------------------------------------------------------------------------

  /** What the walk did: the positions it handed to the action, the json errors it logged, and what escaped. */
  datatype Walk = Walk(calls: seq<nat>, logged: seq<(nat, Error)>, escaped: Option<Error>)

  /** The first position from `i` on whose action raises something other than a json error, or the size. */
  function FirstEscape(elems: seq<Value>, action: Value -> Result<(), Error>, i: nat): (r: nat)
    requires i <= |elems|
    ensures i <= r <= |elems|
    ensures forall j | i <= j < r :: action(elems[j]).Success? || IsJsonError(action(elems[j]).error)
    ensures r < |elems| ==> action(elems[r]).Failure? && !IsJsonError(action(elems[r]).error)
    decreases |elems| - i
  {
    if i == |elems| then i
    else if action(elems[i]).Failure? && !IsJsonError(action(elems[i]).error) then i
    else FirstEscape(elems, action, i + 1)
  }

  /** The json errors of positions `0 .. n - 1`, with their positions, in order. */
  function Logged(elems: seq<Value>, action: Value -> Result<(), Error>, n: nat): (r: seq<(nat, Error)>)
    requires n <= |elems|
    ensures |r| <= n
    ensures forall k | 0 <= k < |r| :: r[k].0 < n && action(elems[r[k].0]) == Failure(r[k].1)
  {
    if n == 0 then []
    else
      var prefix := Logged(elems, action, n - 1);
      var outcome := action(elems[n - 1]);
      if outcome.Failure? && IsJsonError(outcome.error) then prefix + [(n - 1, outcome.error)] else prefix
  }

  /** The positions `0 .. n - 1`. */
  function Positions(n: nat): (r: seq<nat>)
    ensures |r| == n
    ensures forall k | 0 <= k < n :: r[k] == k
  {
    if n == 0 then [] else Positions(n - 1) + [n - 1]
  }

  /**
   * `for_each_element_skip_on_fail(json, action)`: bad_type unless `json`
   * is an array; otherwise the action runs on each element in position
   * order, a json error being logged and the walk going on at the next
   * position, and any other exception ending the walk and escaping.
   */
  method ForEachElementSkipOnFail(v: Value, action: Value -> Result<(), Error>) returns (w: Walk)
    ensures !v.Arr? ==> w == Walk([], [], Some(BadTypeError(ArrayValue, v)))
    ensures v.Arr? ==>
              var stop := FirstEscape(v.elems, action, 0);
              w.calls == Positions(if stop < |v.elems| then stop + 1 else stop) &&
              w.logged == Logged(v.elems, action, stop) &&
              w.escaped == if stop < |v.elems| then Some(action(v.elems[stop]).error) else None
  {
    var checked := RequireArray(v);
    if checked.Failure? {
      return Walk([], [], Some(checked.error));
    }
    var size := Size(v);
    var calls, logged := [], [];
    var i := 0;
    while i < size
      invariant i <= size && FirstEscape(v.elems, action, 0) == FirstEscape(v.elems, action, i)
      invariant calls == Positions(i) && logged == Logged(v.elems, action, i)
      decreases size - i
    {
      var element := RequireElement(v, i);
      var outcome := action(element.value);
      calls := calls + [i];
      if outcome.Failure? {
        if !IsJsonError(outcome.error) {
          return Walk(calls, logged, Some(outcome.error));
        }
        logged := logged + [(i, outcome.error)];
      }
      i := i + 1;
    }
    return Walk(calls, logged, None);
  }

  /** A walk whose action raises no foreign exception calls it on every element exactly once, in order. */
  lemma {:induction false} NoEscapeVisitsAll(elems: seq<Value>, action: Value -> Result<(), Error>, i: nat)
    requires i <= |elems|
    requires forall j | i <= j < |elems| :: action(elems[j]).Success? || IsJsonError(action(elems[j]).error)
    ensures FirstEscape(elems, action, i) == |elems|
    decreases |elems| - i
  {
    if i < |elems| {
      NoEscapeVisitsAll(elems, action, i + 1);
    }
  }

  /** Some entry of `log` is about position `j`. */
  ghost predicate LogsPosition(log: seq<(nat, Error)>, j: nat) {
    exists k | 0 <= k < |log| :: log[k].0 == j
  }

  /** A position is logged exactly when its action raised a json error before the walk stopped. */
  lemma {:induction false} LoggedExactly(elems: seq<Value>, action: Value -> Result<(), Error>, n: nat, j: nat)
    requires n <= |elems| && j < n
    ensures LogsPosition(Logged(elems, action, n), j) <==>
              action(elems[j]).Failure? && IsJsonError(action(elems[j]).error)
  {
    var prefix := Logged(elems, action, n - 1);
    var r := Logged(elems, action, n);
    var failed := action(elems[j]).Failure? && IsJsonError(action(elems[j]).error);
    assert |r| <= |prefix| + 1 && (|r| > |prefix| ==> r[|prefix|].0 == n - 1);
    assert forall k | 0 <= k < |prefix| :: r[k] == prefix[k];
    if j < n - 1 {
      LoggedExactly(elems, action, n - 1, j);
      if failed {
        var k :| 0 <= k < |prefix| && prefix[k].0 == j;
        assert r[k].0 == j;
      } else {
        forall k | 0 <= k < |r|
          ensures r[k].0 != j
        {
          if k < |prefix| {
            assert r[k] == prefix[k];
          }
        }
      }
    } else if failed {
      assert r[|prefix|].0 == j;
    }
  }

}
