/** The shared form-field validator: a list of rules, tried in order, the first rejection wins. */
module Validates {
  import opened Types

  /** A rule: a test on the field's text and the message shown when the test rejects it. */
  datatype ValidationRule = ValidationRule(validate: string -> bool, message: string)

  /** `{ hasError, errorMessage }`, where `null` is `None`. */
  datatype ValidationResult = ValidationResult(hasError: bool, errorMessage: Option<string>)

  /** The result of a value that every rule accepts. */
  const Passed := ValidationResult(false, None)

  /** `validateValue`: the rules are tried in list order and the first that rejects the value
      stops the scan with its message. */
  function ValidateValue(value: string, rules: seq<ValidationRule>): (r: ValidationResult)
    ensures r.hasError <==> r.errorMessage.Some?
    ensures r.errorMessage.Some? ==> exists k :: 0 <= k < |rules| && rules[k].message == r.errorMessage.value
  {
    if rules == [] then Passed
    else if !rules[0].validate(value) then ValidationResult(true, Some(rules[0].message))
    else
      var rest := ValidateValue(value, rules[1..]);
      assert rest.errorMessage.Some? ==> exists k :: 0 <= k < |rules| && rules[k].message == rest.errorMessage.value by {
        if rest.errorMessage.Some? {
          var k :| 0 <= k < |rules[1..]| && rules[1..][k].message == rest.errorMessage.value;
          assert rules[k + 1].message == rest.errorMessage.value;
        }
      }
      rest
  }

  /** The index of the first rule that rejects the value, or `|rules|` when none does. */
  function FirstRejecting(value: string, rules: seq<ValidationRule>): (k: nat)
    ensures k <= |rules|
    ensures forall j :: 0 <= j < k ==> rules[j].validate(value)
    ensures k < |rules| ==> !rules[k].validate(value)
  {
    if rules == [] then 0
    else if !rules[0].validate(value) then 0
    else 1 + FirstRejecting(value, rules[1..])
  }

  /** The validator reports no error exactly when every rule accepts the value (so an empty rule
      list never reports one). */
  lemma {:induction false} PassedIffAllAccept(value: string, rules: seq<ValidationRule>)
    ensures ValidateValue(value, rules) == Passed <==> forall j :: 0 <= j < |rules| ==> rules[j].validate(value)
  {
    if rules != [] && rules[0].validate(value) {
      PassedIffAllAccept(value, rules[1..]);
      assert forall j :: 1 <= j < |rules| ==> rules[j] == rules[1..][j - 1];
    }
  }

  /** On failure the message is that of the first rejecting rule in list order. */
  lemma {:induction false} ErrorIsFirstRejection(value: string, rules: seq<ValidationRule>)
    ensures var k := FirstRejecting(value, rules);
      ValidateValue(value, rules) ==
        if k < |rules| then ValidationResult(true, Some(rules[k].message)) else Passed
  {
    if rules != [] && rules[0].validate(value) {
      ErrorIsFirstRejection(value, rules[1..]);
    }
  }

  /** Rules after the first rejecting one are never consulted: replacing them by any other rules
      leaves the result as it is. */
  lemma {:induction false} LaterRulesIgnored(value: string, rules: seq<ValidationRule>, others: seq<ValidationRule>)
    requires FirstRejecting(value, rules) < |rules|
    ensures var k := FirstRejecting(value, rules);
      ValidateValue(value, rules[..k + 1] + others) == ValidateValue(value, rules)
  {
    if rules[0].validate(value) {
      var k := FirstRejecting(value, rules);
      LaterRulesIgnored(value, rules[1..], others);
      assert (rules[..k + 1] + others)[1..] == rules[1..][..k] + others;
    }
  }
}
