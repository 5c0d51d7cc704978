/**
 * The declarative rule evaluator `validateInput`: given a field's raw value
 * and its ordered rules, the message of the first rule the value violates,
 * or none.
 */
module Validation {
  import opened Wrappers
  import opened JsString

  /** One `{key, value, message?}` rule; `key` is free text, only five kinds mean something. */
  datatype Rule = Rule(key: string, value: string, message: Option<string>)

  /** A JavaScript number other than NaN (NaN is the `None` of a parse). */
  datatype Number = Finite(value: real) | PositiveInfinity | NegativeInfinity

  /** `a < b` on numbers that are not NaN. */
  predicate Below(a: Number, b: Number) {
    match (a, b)
    case (Finite(x), Finite(y)) => x < y
    case (NegativeInfinity, PositiveInfinity) => true
    case (NegativeInfinity, Finite(_)) => true
    case (Finite(_), PositiveInfinity) => true
    case _ => false
  }

  /**
   * The browser primitives the evaluator calls. `regExpTest(source, input)`
   * is `new RegExp(source).test(input)`, `None` when the constructor throws a
   * SyntaxError; `parseFloat` and `parseInt` give `None` for NaN.
   */
  datatype Host = Host(
    regExpTest: (string, string) -> Option<bool>,
    parseFloat: string -> Option<Number>,
    parseInt: string -> Option<Number>)

  /** What evaluating rules yields: nothing to report, a message, or the SyntaxError of a bad pattern. */
  datatype Verdict = Passed | Violated(message: string) | InvalidPattern(source: string)

  const RuleKinds: set<string> := {"required", "maxlength", "pattern", "min", "max"}

  /** `message || fallback`: a missing or empty custom message falls back. */
  function MessageOr(custom: Option<string>, fallback: string): string {
    if custom.Some? && custom.value != "" then custom.value else fallback
  }

  /** The built-in text of each rule kind; an unknown key never fails, so it has none. */
  function DefaultMessage(rule: Rule): string {
    match rule.key
    case "required" => "This field is required."
    case "maxlength" => "Maximum length is " + rule.value + " characters."
    case "pattern" => "Please enter a valid input."
    case "min" => "Minimum value is " + rule.value + "."
    case "max" => "Maximum value is " + rule.value + "."
    case _ => ""
  }

  /** The numeric comparison of `min`/`max`: both sides parse and `lower < upper`. */
  predicate ParsedBelow(lower: Option<Number>, upper: Option<Number>) {
    lower.Some? && upper.Some? && Below(lower.value, upper.value)
  }

  /** One iteration of the evaluator's loop: the verdict of a single rule. */
  function Check(host: Host, input: string, rule: Rule): Verdict
  {
    var message := MessageOr(rule.message, DefaultMessage(rule));
    match rule.key
    case "required" =>
      if rule.value == "true" && Trim(input) == "" then Violated(message) else Passed
    case "maxlength" =>
      if ParsedBelow(host.parseInt(rule.value), Some(Finite(Utf16Length(input) as real))) then Violated(message) else Passed
    case "pattern" =>
      (match host.regExpTest(rule.value, input)
       case None => InvalidPattern(rule.value)
       case Some(matched) => if matched then Passed else Violated(message))
    case "min" =>
      if ParsedBelow(host.parseFloat(input), host.parseFloat(rule.value)) then Violated(message) else Passed
    case "max" =>
      if ParsedBelow(host.parseFloat(rule.value), host.parseFloat(input)) then Violated(message) else Passed
    case _ => Passed
  }

  /**
   * What a single rule decides: an unknown key never fails; `required` fails iff its
   * value is `"true"` and the input is blank; `maxlength` iff the parsed limit is below
   * the input's length; `pattern` iff the compiled pattern does not match, and it throws
   * iff the pattern does not compile; `min`/`max` iff both sides parse and the input is
   * below/above the bound. A failure carries the custom message, or else the default.
   */
  lemma CheckMeaning(host: Host, input: string, rule: Rule)
    ensures var v := Check(host, input, rule);
      && (rule.key !in RuleKinds ==> v == Passed)
      && (v.Violated? ==> v.message == MessageOr(rule.message, DefaultMessage(rule)) && v.message != "")
      && (v.InvalidPattern? <==> rule.key == "pattern" && host.regExpTest(rule.value, input).None?)
      && (rule.key == "required" ==> (v.Violated? <==> rule.value == "true" && Blank(input)))
      && (rule.key == "maxlength" ==>
            (v.Violated? <==> ParsedBelow(host.parseInt(rule.value), Some(Finite(Utf16Length(input) as real)))))
      && (rule.key == "pattern" ==> (v.Violated? <==> host.regExpTest(rule.value, input) == Some(false)))
      && (rule.key == "min" ==> (v.Violated? <==> ParsedBelow(host.parseFloat(input), host.parseFloat(rule.value))))
      && (rule.key == "max" ==> (v.Violated? <==> ParsedBelow(host.parseFloat(rule.value), host.parseFloat(input))))
  {
    if rule.key == "required" {
      TrimEmptyIffBlank(input);
    }
  }

  /** Rule `i` is the first that does not pass. */
  predicate FirstFailing(host: Host, input: string, rules: seq<Rule>, i: nat)
    requires i < |rules|
  {
    Check(host, input, rules[i]) != Passed && forall j :: 0 <= j < i ==> Check(host, input, rules[j]) == Passed
  }

  /** The verdict of the first rule, in declaration order, that does not pass. */
  function FirstViolation(host: Host, input: string, rules: seq<Rule>): Verdict {
    if rules == [] then Passed
    else
      var v := Check(host, input, rules[0]);
      if v != Passed then v else FirstViolation(host, input, rules[1..])
  }

  /** The evaluator passes iff every rule passes. */
  lemma {:induction false} FirstViolationPasses(host: Host, input: string, rules: seq<Rule>)
    ensures FirstViolation(host, input, rules) == Passed <==>
      forall i :: 0 <= i < |rules| ==> Check(host, input, rules[i]) == Passed
  {
    if rules != [] {
      var rest := rules[1..];
      FirstViolationPasses(host, input, rest);
      assert forall i :: 1 <= i < |rules| ==> rest[i - 1] == rules[i];
    }
  }

  /** When the evaluator fails, its verdict is that of the first rule, in declaration order, that does not pass. */
  lemma {:induction false} FirstViolationMeaning(host: Host, input: string, rules: seq<Rule>)
    ensures FirstViolation(host, input, rules) != Passed ==>
      exists i :: 0 <= i < |rules| && FirstViolation(host, input, rules) == Check(host, input, rules[i])
        && FirstFailing(host, input, rules, i)
  {
    if rules != [] {
      var rest := rules[1..];
      if Check(host, input, rules[0]) != Passed {
        assert FirstFailing(host, input, rules, 0);
      } else if FirstViolation(host, input, rest) != Passed {
        FirstViolationMeaning(host, input, rest);
        var k :| 0 <= k < |rest| && FirstViolation(host, input, rest) == Check(host, input, rest[k])
          && FirstFailing(host, input, rest, k);
        assert rest[k] == rules[k + 1];
        assert forall j :: 1 <= j < k + 1 ==> rest[j - 1] == rules[j];
        assert FirstFailing(host, input, rules, k + 1);
      }
    }
  }

  /** `validateInput(inputValue, validations)`; `None` is an absent rule list. */
  function Evaluate(host: Host, input: string, validations: Option<seq<Rule>>): (v: Verdict)
    ensures validations.None? || validations.value == [] ==> v == Passed
  {
    match validations
    case None => Passed
    case Some(rules) => FirstViolation(host, input, rules)
  }

  /** The first rule that does not pass decides the verdict. */
  lemma {:induction false} FirstFailingDecides(host: Host, input: string, rules: seq<Rule>, i: nat)
    requires i < |rules| && FirstFailing(host, input, rules, i)
    ensures FirstViolation(host, input, rules) == Check(host, input, rules[i])
  {
    if i > 0 {
      var rest := rules[1..];
      assert Check(host, input, rules[0]) == Passed;
      assert FirstViolation(host, input, rules) == FirstViolation(host, input, rest);
      assert rest[i - 1] == rules[i];
      assert forall j :: 0 <= j < i - 1 ==> rest[j] == rules[j + 1];
      assert FirstFailing(host, input, rest, i - 1);
      FirstFailingDecides(host, input, rest, i - 1);
    }
  }

  /** The evaluator as the source runs it: a loop over the rules with an early return. */
  method ValidateInput(host: Host, input: string, validations: Option<seq<Rule>>) returns (v: Verdict)
    ensures v == Evaluate(host, input, validations)
  {
    if validations.None? || |validations.value| == 0 {
      return Passed;
    }
    var rules := validations.value;
    for i := 0 to |rules|
      invariant FirstViolation(host, input, rules[i..]) == FirstViolation(host, input, rules)
    {
      assert rules[i..][0] == rules[i] && rules[i..][1..] == rules[i + 1..];
      var msg := Check(host, input, rules[i]);
      if msg != Passed {
        return msg;
      }
    }
    assert rules[|rules|..] == [];
    return Passed;
  }

  /** Rules after the first violation are never consulted: appending rules cannot change a reported message. */
  lemma {:induction false} LaterRulesIgnored(host: Host, input: string, rules: seq<Rule>, later: seq<Rule>)
    ensures FirstViolation(host, input, rules + later) ==
      if FirstViolation(host, input, rules) != Passed then FirstViolation(host, input, rules)
      else FirstViolation(host, input, later)
  {
    if rules == [] {
      assert rules + later == later;
    } else {
      var all := rules + later;
      assert all[0] == rules[0];
      assert all[1..] == rules[1..] + later;
      if Check(host, input, rules[0]) == Passed {
        LaterRulesIgnored(host, input, rules[1..], later);
      }
    }
  }

  /** The source's test case on a filled-in `required` field. */
  lemma RequiredFilledExample(host: Host)
    ensures Evaluate(host, "my value", Some([Rule("required", "true", None)])) == Passed
  {
    var required := Rule("required", "true", None);
    var input := "my value";
    assert input[0] == 'm';
    TrimKeepsVisible(input);
    assert Check(host, input, required) == Passed;
    assert [required][1..] == [];
    assert FirstViolation(host, input, [required]) == FirstViolation(host, input, []);
  }

  /** An empty `required` field fails with the default message. */
  lemma RequiredEmptyExample(host: Host)
    ensures Evaluate(host, "", Some([Rule("required", "true", None)])) == Violated("This field is required.")
  {
    var required := Rule("required", "true", None);
    assert Check(host, "", required) == Violated("This field is required.");
  }

  /** Rules are consulted in order: a failing `required` is reported before a later rule is looked at. */
  lemma PrecedenceExample(host: Host)
    ensures Evaluate(host, "", Some([Rule("required", "true", None), Rule("min", "0", Some("too small"))]))
      == Violated("This field is required.")
  {
    var required := Rule("required", "true", None);
    assert Check(host, "", required) == Violated("This field is required.");
  }

  /** `maxlength` counts UTF-16 code units: one character above U+FFFF already exceeds a limit of 1. */
  lemma MaxLengthCountsCodeUnits(host: Host)
    requires host.parseInt("1") == Some(Finite(1.0))
    ensures Evaluate(host, "\U{1F600}", Some([Rule("maxlength", "1", None)])) == Violated("Maximum length is 1 characters.")
  {
    var input := "\U{1F600}";
    var rule := Rule("maxlength", "1", None);
    assert input[..0] == [];
    assert Utf16Length(input) == 2;
    assert Check(host, input, rule) == Violated("Maximum length is 1 characters.");
  }

  /** The source's test cases on `min` and `max`, for any parser that reads these decimal literals. */
  lemma BoundExamples(host: Host)
    requires host.parseFloat("-10") == Some(Finite(-10.0))
    requires host.parseFloat("10") == Some(Finite(10.0))
    requires host.parseFloat("0") == Some(Finite(0.0))
    requires host.parseFloat("999") == Some(Finite(999.0))
    requires host.parseFloat("99999") == Some(Finite(99999.0))
    ensures Evaluate(host, "-10", Some([Rule("min", "0", None)])) == Violated("Minimum value is 0.")
    ensures Evaluate(host, "10", Some([Rule("min", "0", None)])) == Passed
    ensures Evaluate(host, "999", Some([Rule("max", "99999", None)])) == Passed
  {
    var min := Rule("min", "0", None);
    var max := Rule("max", "99999", None);
    assert [min][1..] == [] && [max][1..] == [];
    assert Check(host, "10", min) == Passed;
    assert FirstViolation(host, "10", [min]) == FirstViolation(host, "10", []) == Passed;
    assert Check(host, "999", max) == Passed;
    assert FirstViolation(host, "999", [max]) == FirstViolation(host, "999", []) == Passed;
  }
}
