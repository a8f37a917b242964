/** The business rules a FizzBuzz request must satisfy before it is served.
    String lengths are counted in bytes of the UTF-8 encoding, as Go's `len`
    counts them. */
module InputValidation {
  import opened Wrappers
  import opened Models
  import opened Validation
  import Text

  const MaxDivisor := 10000
  const MaxLimit := 100000
  const MaxStringBytes := 50

  const PositiveMessage := "must be a positive integer"
  const DivisorMaxMessage := "must not be more than 10,000"
  const DistinctMessage := "must be different from int2"
  const LimitMaxMessage := "must not be more than 100,000"
  const ProvidedMessage := "must be provided"
  const LengthMessage := "must not be more than 50 characters"

  /** The rules, stated on their own: both divisors between 1 and 10,000 and
      different, the limit between 1 and 100,000, both strings non-empty and
      at most 50 bytes long. */
  predicate AcceptableInput(input: FizzBuzzInput) {
    && 1 <= input.int1 <= MaxDivisor
    && 1 <= input.int2 <= MaxDivisor
    && input.int1 != input.int2
    && 1 <= input.limit <= MaxLimit
    && input.str1 != "" && Text.Utf8Length(input.str1) <= MaxStringBytes
    && input.str2 != "" && Text.Utf8Length(input.str2) <= MaxStringBytes
  }

  /** The message for a number that must lie between 1 and `max`, if it
      does not. */
  function RangeError(x: int, max: int, maxMessage: string): Option<string> {
    if x <= 0 then Some(PositiveMessage)
    else if x > max then Some(maxMessage)
    else None
  }

  /** The message for a string that must be present and at most 50 bytes
      long, if it is not. */
  function TextError(s: string): Option<string> {
    if s == "" then Some(ProvidedMessage)
    else if Text.Utf8Length(s) > MaxStringBytes then Some(LengthMessage)
    else None
  }

  /** The message for int1: equal divisors take precedence over the range. */
  function Int1Error(input: FizzBuzzInput): Option<string> {
    if input.int1 == input.int2 then Some(DistinctMessage)
    else RangeError(input.int1, MaxDivisor, DivisorMaxMessage)
  }

  /** `m` with `key` set to the message, if there is one. */
  function Put(m: map<string, string>, key: string, message: Option<string>): map<string, string> {
    if message.Some? then m[key := message.value] else m
  }

  /** The messages expected for `input`, one per field that breaks a rule. */
  function ExpectedErrors(input: FizzBuzzInput): map<string, string> {
    var m1 := Put(map[], "int1", Int1Error(input));
    var m2 := Put(m1, "int2", RangeError(input.int2, MaxDivisor, DivisorMaxMessage));
    var m3 := Put(m2, "limit", RangeError(input.limit, MaxLimit, LimitMaxMessage));
    var m4 := Put(m3, "str1", TextError(input.str1));
    Put(m4, "str2", TextError(input.str2))
  }

  /** The two checks on a number field: positive first, then at most
      `max`; the message left is that of the first broken rule. */
  function CheckRange(v: Validator, x: int, key: string, max: int, maxMessage: string): (v': Validator)
    requires max > 0
    ensures v'.errors == Put(v.errors, key, RangeError(x, max, maxMessage))
  {
    Check(Check(v, x > 0, key, PositiveMessage), x <= max, key, maxMessage)
  }

  /** The two checks on a string field: present first, then at most 50
      bytes. */
  function CheckText(v: Validator, s: string, key: string): (v': Validator)
    ensures v'.errors == Put(v.errors, key, TextError(s))
  {
    Check(Check(v, s != "", key, ProvidedMessage), Text.Utf8Length(s) <= MaxStringBytes, key, LengthMessage)
  }

  /** The checks in the order the handler runs them; a later failing check on
      the same field replaces the message of an earlier one, so int1 reports
      equal divisors even when it is also out of range. */
  function ValidateFizzBuzzInput(input: FizzBuzzInput): (v: Validator)
    ensures v.errors == ExpectedErrors(input)
  {
    var v2 := CheckRange(New(), input.int1, "int1", MaxDivisor, DivisorMaxMessage);
    var v4 := CheckRange(v2, input.int2, "int2", MaxDivisor, DivisorMaxMessage);
    var v5 := Check(v4, input.int1 != input.int2, "int1", DistinctMessage);
    assert v5.errors == Put(Put(map[], "int1", Int1Error(input)), "int2",
                            RangeError(input.int2, MaxDivisor, DivisorMaxMessage));
    var v7 := CheckRange(v5, input.limit, "limit", MaxLimit, LimitMaxMessage);
    var v9 := CheckText(v7, input.str1, "str1");
    CheckText(v9, input.str2, "str2")
  }

  /** The input is accepted exactly when it satisfies the rules, and only the
      five fields can carry errors. */
  lemma ValidIffAcceptable(input: FizzBuzzInput)
    ensures Valid(ValidateFizzBuzzInput(input)) <==> AcceptableInput(input)
    ensures ValidateFizzBuzzInput(input).errors.Keys <= {"int1", "int2", "limit", "str1", "str2"}
    ensures |ValidateFizzBuzzInput(input).errors| <= 5
  {
    var e := ExpectedErrors(input);
    assert e.Keys <= {"int1", "int2", "limit", "str1", "str2"};
    assert |{"int1", "int2", "limit", "str1", "str2"}| == 5;
    SubsetCardinality(e.Keys, {"int1", "int2", "limit", "str1", "str2"});
    if !AcceptableInput(input) {
      assert e != map[];
    }
  }

  lemma SubsetCardinality(a: set<string>, b: set<string>)
    requires a <= b
    ensures |a| <= |b|
  {
    assert b == a + (b - a);
  }

  /** The fields that fail are exactly those breaking a rule, each with the
      message of the rule it breaks. */
  lemma FieldsAndMessages(input: FizzBuzzInput)
    ensures var e := ValidateFizzBuzzInput(input).errors;
      && ("int1" in e <==> Int1Error(input).Some?)
      && ("int2" in e <==> RangeError(input.int2, MaxDivisor, DivisorMaxMessage).Some?)
      && ("limit" in e <==> RangeError(input.limit, MaxLimit, LimitMaxMessage).Some?)
      && ("str1" in e <==> TextError(input.str1).Some?)
      && ("str2" in e <==> TextError(input.str2).Some?)
      && ("int1" in e ==> e["int1"] == Int1Error(input).value)
      && ("int2" in e ==> e["int2"] == RangeError(input.int2, MaxDivisor, DivisorMaxMessage).value)
      && ("limit" in e ==> e["limit"] == RangeError(input.limit, MaxLimit, LimitMaxMessage).value)
      && ("str1" in e ==> e["str1"] == TextError(input.str1).value)
      && ("str2" in e ==> e["str2"] == TextError(input.str2).value)
  {
    var m1 := Put(map[], "int1", Int1Error(input));
    var m2 := Put(m1, "int2", RangeError(input.int2, MaxDivisor, DivisorMaxMessage));
    var m3 := Put(m2, "limit", RangeError(input.limit, MaxLimit, LimitMaxMessage));
    var m4 := Put(m3, "str1", TextError(input.str1));
    var m5 := Put(m4, "str2", TextError(input.str2));
    assert m5 == ExpectedErrors(input);
    PutAt(m4, "str2", TextError(input.str2));
    PutAt(m3, "str1", TextError(input.str1));
    PutAt(m2, "limit", RangeError(input.limit, MaxLimit, LimitMaxMessage));
    PutAt(m1, "int2", RangeError(input.int2, MaxDivisor, DivisorMaxMessage));
    PutAt(map[], "int1", Int1Error(input));
  }

  /** `Put` sets the one key, when there is a message, and nothing else. */
  lemma PutAt(m: map<string, string>, key: string, message: Option<string>)
    ensures key in Put(m, key, message) <==> message.Some? || key in m
    ensures message.Some? ==> Put(m, key, message)[key] == message.value
    ensures forall k :: k != key ==> (k in Put(m, key, message) <==> k in m)
    ensures forall k :: k != key && k in m ==> Put(m, key, message)[k] == m[k]
  {
  }

  /** Equal divisors are reported as such even when int1 is also out of
      range; an empty string is reported as missing, not as too long. */
  lemma Precedence(input: FizzBuzzInput)
    ensures input.int1 == input.int2 ==> ValidateFizzBuzzInput(input).errors["int1"] == DistinctMessage
    ensures input.int1 != input.int2 && input.int1 > MaxDivisor ==>
              ValidateFizzBuzzInput(input).errors["int1"] == DivisorMaxMessage
    ensures input.str1 == "" ==> ValidateFizzBuzzInput(input).errors["str1"] == ProvidedMessage
  {
    FieldsAndMessages(input);
  }

  /** Every rule broken at once: each field reports its first rule. */
  lemma AllFieldsMissing()
    ensures ValidateFizzBuzzInput(FizzBuzzInput(-1, -2, 0, "", "")).errors
      == map["int1" := PositiveMessage, "int2" := PositiveMessage, "limit" := PositiveMessage,
             "str1" := ProvidedMessage, "str2" := ProvidedMessage]
  {
    var input := FizzBuzzInput(-1, -2, 0, "", "");
    FieldsAndMessages(input);
    var e := ValidateFizzBuzzInput(input).errors;
    assert e.Keys == {"int1", "int2", "limit", "str1", "str2"};
  }

  /** Length is counted in bytes: 26 copies of a two-byte character are
      rejected although they are fewer than 50 characters. */
  lemma TwoByteCharactersCountTwice()
    ensures Text.Utf8Length(seq(26, _ => 'é')) == 52
    ensures !AcceptableInput(FizzBuzzInput(3, 5, 100, seq(26, _ => 'é'), "buzz"))
  {
    Utf8LengthOfRepeat('é', 26);
  }

  lemma {:induction false} Utf8LengthOfRepeat(c: char, n: nat)
    ensures Text.Utf8Length(seq(n, _ => c)) == n * Text.Utf8Width(c)
  {
    if n > 0 {
      var s := seq(n, _ => c);
      assert s[1..] == seq(n - 1, _ => c);
      Utf8LengthOfRepeat(c, n - 1);
    }
  }
}
