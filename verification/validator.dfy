/** The field-keyed error collection used to validate request input, and its
    membership and uniqueness helpers. */
module Validation {
  import opened Wrappers

  /** The messages collected so far, one per field key. */
  datatype Validator = Validator(errors: map<string, string>)

  function New(): (v: Validator)
    ensures Valid(v)
    ensures ErrorMap(v).None?
  {
    Validator(map[])
  }

  /** No field carries a message. */
  function Valid(v: Validator): (b: bool)
    ensures b <==> forall k :: k !in v.errors
  {
    |v.errors| == 0
  }

  /** Records `message` for `key`, replacing an earlier message for it; the
      other keys keep theirs. */
  function AddError(v: Validator, key: string, message: string): (v': Validator)
    ensures !Valid(v')
    ensures v'.errors.Keys == v.errors.Keys + {key}
    ensures v'.errors[key] == message
    ensures forall k :: k in v.errors && k != key ==> v'.errors[k] == v.errors[k]
  {
    Validator(v.errors[key := message])
  }

  /** Records `message` for `key` unless `condition` holds. */
  function Check(v: Validator, condition: bool, key: string, message: string): (v': Validator)
    ensures condition ==> v' == v
    ensures !condition ==> v' == AddError(v, key, message)
  {
    if condition then v else AddError(v, key, message)
  }

  /** A copy of the messages, or nothing when there are none. */
  function ErrorMap(v: Validator): (m: Option<map<string, string>>)
    ensures m.None? <==> Valid(v)
    ensures m.Some? ==> m.value == v.errors
  {
    if |v.errors| == 0 then None
    else Some(map k | k in v.errors :: v.errors[k])
  }

  function Clear(v: Validator): (v': Validator)
    ensures Valid(v') && ErrorMap(v').None?
  {
    Validator(map[])
  }

  /** Whether `value` occurs in `list`, scanning from the front. */
  function Contains<T(==)>(list: seq<T>, value: T): (b: bool)
    ensures b <==> value in list
  {
    if |list| == 0 then false
    else list[0] == value || Contains(list[1..], value)
  }

  function PermittedValue<T(==)>(value: T, permittedValues: seq<T>): (b: bool)
    ensures b <==> exists i :: 0 <= i < |permittedValues| && permittedValues[i] == value
  {
    Contains(permittedValues, value)
  }

  function In<T(==)>(value: T, list: seq<T>): (b: bool)
    ensures b <==> value in list
    ensures b == PermittedValue(value, list)
  {
    Contains(list, value)
  }

  /** No value occurs twice. */
  predicate NoDuplicates<T(==)>(values: seq<T>) {
    forall i, j :: 0 <= i < j < |values| ==> values[i] != values[j]
  }

  /** Scans the values, remembering those seen, and stops at the first
      repeat. */
  method Unique<T(==)>(values: seq<T>) returns (b: bool)
    ensures b <==> NoDuplicates(values)
  {
    var seen: set<T> := {};
    var i := 0;
    while i < |values|
      invariant 0 <= i <= |values|
      invariant seen == set k | 0 <= k < i :: values[k]
      invariant NoDuplicates(values[..i])
    {
      if values[i] in seen {
        var k :| 0 <= k < i && values[k] == values[i];
        assert !NoDuplicates(values);
        return false;
      }
      seen := seen + {values[i]};
      assert forall p, q :: 0 <= p < q < i + 1 ==> values[..i + 1][p] == values[p] && values[..i + 1][q] == values[q];
      i := i + 1;
    }
    assert values[..i] == values;
    return true;
  }

  // ----- Properties -----------------------------------------------------------

  /** The validator after each check, a (condition, key, message) triple, in
      turn. */
  function CheckAll(v: Validator, checks: seq<(bool, string, string)>): Validator
    decreases |checks|
  {
    if |checks| == 0 then v
    else
      var c := checks[|checks| - 1];
      Check(CheckAll(v, checks[..|checks| - 1]), c.0, c.1, c.2)
  }

  /** The keys of the failed checks among `checks`. */
  function FailedKeys(checks: seq<(bool, string, string)>): (s: set<string>)
    ensures forall k :: k in s <==> exists i :: 0 <= i < |checks| && !checks[i].0 && checks[i].1 == k
  {
    if |checks| == 0 then {}
    else
      var c := checks[|checks| - 1];
      var rest := FailedKeys(checks[..|checks| - 1]);
      assert forall i :: 0 <= i < |checks| - 1 ==> checks[..|checks| - 1][i] == checks[i];
      if c.0 then rest else rest + {c.1}
  }

  /** Starting from a new validator, the checks are all passed exactly when
      the result is valid, and the failing keys are exactly the error keys. */
  lemma {:induction false} CheckAllKeys(checks: seq<(bool, string, string)>)
    ensures CheckAll(New(), checks).errors.Keys == FailedKeys(checks)
    ensures Valid(CheckAll(New(), checks)) <==> forall i :: 0 <= i < |checks| ==> checks[i].0
    decreases |checks|
  {
    if |checks| > 0 {
      CheckAllKeys(checks[..|checks| - 1]);
      assert forall i :: 0 <= i < |checks| - 1 ==> checks[..|checks| - 1][i] == checks[i];
    }
  }

  /** Clearing a validator with errors makes it usable for a new pass. */
  lemma ClearThenAdd(v: Validator, key: string, message: string)
    ensures ErrorMap(AddError(Clear(v), key, message)) == Some(map[key := message])
  {
  }
}
