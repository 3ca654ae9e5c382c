/** The value rules of the built-in validators: what `validate` and `to_value`
    do for Regex, Range, Choice and Boolean instances, given the configuration
    their constructors stored. The regular-expression engine (`re.match`) and
    the float parser (`float(str)`) are parameters. */
module Rules {
  import opened Values
  import opened Text

  // ---------------------------------------------------------------- Regex

  /** RegexValidator.validate: the value passes exactly when the pattern
      matches a prefix of it. */
  function RegexValidate(pattern: string, value: string, prefixMatch: (string, string) -> bool): (r: Check)
    ensures r == Pass <==> prefixMatch(pattern, value)
    ensures r != Pass ==> r == Fail(NoRegexMatch)
  {
    if prefixMatch(pattern, value) then Pass else Fail(NoRegexMatch)
  }

  // ---------------------------------------------------------------- Range

  /** RangeValidator.validate: `min_value <= float(value) <= max_value`, with
      the chained comparison evaluated left to right. Only the `ValueError` of
      an unparseable value is caught; comparing a bound that is not a number
      raises `TypeError`, which escapes. */
  function RangeValidate(minValue: KwVal, maxValue: KwVal, value: string, parse: string -> Option<real>): (r: Check)
    ensures parse(value) == None <==> r == Fail(NotANumber)
    ensures minValue.KNum? && maxValue.KNum? ==>
      (r == Pass <==> parse(value).Some? && minValue.n <= parse(value).value <= maxValue.n)
    ensures minValue.KNum? && maxValue.KNum? && parse(value).Some? && r != Pass ==>
      r == Fail(NotInRange(minValue, maxValue))
    ensures r.Raise? <==>
      (parse(value).Some? && (!minValue.KNum? || (minValue.n <= parse(value).value && !maxValue.KNum?)))
    ensures r.Raise? ==> r.error == TypeError
    ensures r == Pass ==> minValue.KNum? && maxValue.KNum?
    ensures parse(value).Some? && !r.Raise? && r != Pass ==> r == Fail(NotInRange(minValue, maxValue))
  {
    match parse(value)
    case None => Fail(NotANumber)
    case Some(x) =>
      if !minValue.KNum? then Raise(TypeError)
      else if !(minValue.n <= x) then Fail(NotInRange(minValue, maxValue))
      else if !maxValue.KNum? then Raise(TypeError)
      else if !(x <= maxValue.n) then Fail(NotInRange(minValue, maxValue))
      else Pass
  }

  predicate IsIntegral(x: real) {
    x == x.Floor as real
  }

  /** The number a coerced numeric value stands for. */
  function NumberOf(c: Coerced): real
    requires c.CInt? || c.CFloat?
  {
    if c.CInt? then c.i as real else c.x
  }

  /** RangeValidator.to_value: the parsed number, narrowed to an int when it has
      no fractional part; an unparseable value raises a bare `ValueError`. */
  function RangeToValue(value: string, parse: string -> Option<real>): (r: Result<Coerced>)
    ensures r.Err? <==> parse(value) == None
    ensures r.Err? ==> r.error == ValueError
    ensures r.Ok? ==> (r.value.CInt? || r.value.CFloat?) && NumberOf(r.value) == parse(value).value
    ensures r.Ok? ==> (r.value.CInt? <==> IsIntegral(parse(value).value))
  {
    match parse(value)
    case None => Err(ValueError)
    case Some(x) => if IsIntegral(x) then Ok(CInt(x.Floor)) else Ok(CFloat(x))
  }

  /** A value that passes a numeric range coerces without error to a number
      inside that range. */
  lemma RangeAcceptedValueCoerces(minValue: real, maxValue: real, value: string, parse: string -> Option<real>)
    requires RangeValidate(KNum(minValue), KNum(maxValue), value, parse) == Pass
    ensures RangeToValue(value, parse).Ok?
    ensures minValue <= NumberOf(RangeToValue(value, parse).value) <= maxValue
  {
  }

  // --------------------------------------------------------------- Choice

  predicate AllStrings(choices: seq<KwVal>) {
    forall i :: 0 <= i < |choices| ==> choices[i].KStr?
  }

  function Strings(choices: seq<KwVal>): (r: seq<string>)
    requires AllStrings(choices)
    ensures |r| == |choices|
  {
    seq(|choices|, i requires 0 <= i < |choices| => choices[i].s)
  }

  /** The outcome of `target in map(str.lower, choices)`. */
  datatype Membership = Member | NotMember | LowerOnNonString

  /** `target in map(str.lower, choices)`: the lazy map is consumed from the
      left until a lowered choice equals `target`; `str.lower` applied to a
      choice that is not a string raises `TypeError`. */
  function LoweredMembership(choices: seq<KwVal>, target: string): Membership {
    if choices == [] then NotMember
    else if !choices[0].KStr? then LowerOnNonString
    else if Lower(choices[0].s) == target then Member
    else LoweredMembership(choices[1..], target)
  }

  /** Choice `i` matches `target` and every choice up to it is a string, so the
      scan reaches it without raising. */
  ghost predicate ReachableMatch(choices: seq<KwVal>, target: string, i: int) {
    0 <= i < |choices| && (forall j :: 0 <= j <= i ==> choices[j].KStr?) && Lower(choices[i].s) == target
  }

  lemma {:induction false} LoweredMembershipSpec(choices: seq<KwVal>, target: string)
    ensures LoweredMembership(choices, target) == Member <==> exists i :: ReachableMatch(choices, target, i)
    ensures LoweredMembership(choices, target) == NotMember <==>
      AllStrings(choices) && forall i :: 0 <= i < |choices| ==> Lower(choices[i].s) != target
    ensures LoweredMembership(choices, target) == LowerOnNonString ==> !AllStrings(choices)
  {
    if choices != [] {
      if !choices[0].KStr? {
        assert !AllStrings(choices);
        forall i | 0 <= i < |choices| ensures !ReachableMatch(choices, target, i) {
        }
      } else if Lower(choices[0].s) == target {
        assert ReachableMatch(choices, target, 0);
      } else {
        var tail := choices[1..];
        LoweredMembershipSpec(tail, target);
        forall i | 0 <= i < |tail|
          ensures ReachableMatch(tail, target, i) <==> ReachableMatch(choices, target, i + 1)
        {
          if ReachableMatch(tail, target, i) {
            forall j | 0 <= j <= i + 1 ensures choices[j].KStr? {
              if j > 0 { assert choices[j] == tail[j - 1]; }
            }
          }
          if ReachableMatch(choices, target, i + 1) {
            forall j | 0 <= j <= i ensures tail[j].KStr? {
              assert tail[j] == choices[j + 1];
            }
          }
        }
        if exists i :: ReachableMatch(choices, target, i) {
          var i :| ReachableMatch(choices, target, i);
          assert i != 0;
          assert ReachableMatch(tail, target, i - 1);
        }
        if AllStrings(tail) {
          assert forall i :: 0 < i < |choices| ==> choices[i] == tail[i - 1];
        }
        if AllStrings(choices) {
          assert forall i :: 0 <= i < |tail| ==> tail[i] == choices[i + 1];
        }
      }
    }
  }

  /** ChoiceValidator.validate: case-insensitive membership of the value among
      the choices; on a miss the message lists the choices joined by ", ". */
  function ChoiceValidate(choices: seq<KwVal>, value: string): (r: Check)
    ensures r == Pass <==> exists i :: ReachableMatch(choices, Lower(value), i)
    ensures AllStrings(choices) ==>
      (r == Pass <==> exists i :: 0 <= i < |choices| && Lower(choices[i].s) == Lower(value))
    ensures AllStrings(choices) && r != Pass ==> r == Fail(NotInChoices(Join(Strings(choices), ", ")))
    ensures r.Raise? ==> r.error == TypeError && !AllStrings(choices)
    ensures !AllStrings(choices) && r != Pass ==> r == Raise(TypeError)
  {
    LoweredMembershipSpec(choices, Lower(value));
    match LoweredMembership(choices, Lower(value))
    case Member => Pass
    case LowerOnNonString => Raise(TypeError)
    case NotMember => Fail(NotInChoices(Join(Strings(choices), ", ")))
  }

  // -------------------------------------------------------------- Boolean

  /** BooleanValidator.validate: the lowered value must be "true" or "false". */
  function BooleanValidate(value: string): (r: Check)
    ensures r == Pass <==> Lower(value) == "true" || Lower(value) == "false"
    ensures r != Pass ==> r == Fail(NotBoolean)
  {
    if Lower(value) in {"true", "false"} then Pass else Fail(NotBoolean)
  }

  /** BooleanValidator.to_value: true exactly for a lowered "true"; never raises. */
  function BooleanToValue(value: string): (r: Coerced)
    ensures r.CBool?
    ensures r.b ==> BooleanValidate(value) == Pass
  {
    CBool(Lower(value) == "true")
  }

  /** `str(b)` for a Python bool. */
  function PyStr(b: bool): string {
    if b then "True" else "False"
  }

  /** The accepted values are exactly the two spellings that decide the
      boolean, and whatever is rejected still coerces, to false. */
  lemma BooleanValidateDecides(value: string)
    ensures BooleanValidate(value) == Pass <==> exists b :: Lower(value) == Lower(PyStr(b))
    ensures forall b :: Lower(value) == Lower(PyStr(b)) ==> BooleanToValue(value) == CBool(b)
    ensures BooleanValidate(value) != Pass ==> BooleanToValue(value) == CBool(false)
  {
    assert Lower(PyStr(true)) == "true";
    assert Lower(PyStr(false)) == "false";
    if BooleanValidate(value) == Pass {
      assert Lower(value) == Lower(PyStr(Lower(value) == "true"));
    }
  }

  /** Rendering a bool with `str` and coercing it back is the identity, and the
      rendering passes validation. */
  lemma BooleanRoundTrip(b: bool)
    ensures BooleanValidate(PyStr(b)) == Pass
    ensures BooleanToValue(PyStr(b)) == CBool(b)
  {
    assert Lower("True") == "true";
    assert Lower("False") == "false";
  }
}
