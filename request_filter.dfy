/**
 * The request-level validation filter that runs before the password
 * endpoint: it checks the bound requirements against four rules, collects a
 * message for every rule broken (no early exit), and turns a non-empty list
 * into a Bad Request; a missing or mistyped argument is a Bad Request with a
 * fixed message.
 */
module RequestFilter {
  import opened PasswordGenerator

  const MinLengthError: string := "MinLength must be greater than 0."
  const MaxLengthError: string := "MaxLength must be greater than or equal to MinLength."
  const NegativeError: string := "Minimum character requirements cannot be negative."
  const TotalError: string := "Total minimum character requirements exceed MaxLength."
  const MissingBodyMessage: string := "Invalid or missing request body."

  /** The name under which the action receives the requirements. */
  const RequirementsArgumentName: string := "req"

  /** At least one of the four category minimums is negative. */
  predicate AnyCategoryNegative(req: PasswordRequirements) {
    req.minUpperAlphaChars < 0 || req.minLowerAlphaChars < 0 ||
    req.minNumericChars < 0 || req.minSpecialChars < 0
  }

  /** The position of a message among the four rules, in the order the filter evaluates them. */
  function RuleIndex(message: string): nat {
    if message == MinLengthError then 0
    else if message == MaxLengthError then 1
    else if message == NegativeError then 2
    else 3
  }

  /** A message the filter can produce for a broken rule. */
  predicate IsRuleMessage(message: string) {
    message == MinLengthError || message == MaxLengthError ||
    message == NegativeError || message == TotalError
  }

  /** The message of one rule when it is broken, nothing otherwise. */
  function Check(broken: bool, message: string): seq<string> {
    if broken then [message] else []
  }

  /** The error list of the filter: every rule is checked, whatever the others gave. */
  function FilterErrors(req: PasswordRequirements): seq<string> {
    Check(req.minLength <= 0, MinLengthError) +
    Check(req.maxLength < req.minLength, MaxLengthError) +
    Check(AnyCategoryNegative(req), NegativeError) +
    Check(Required(req) > req.maxLength, TotalError)
  }

  /** Each rule contributes its message exactly when the rule is broken. */
  lemma FilterErrorsReportBrokenRules(req: PasswordRequirements)
    ensures MinLengthError in FilterErrors(req) <==> req.minLength <= 0
    ensures MaxLengthError in FilterErrors(req) <==> req.maxLength < req.minLength
    ensures NegativeError in FilterErrors(req) <==> AnyCategoryNegative(req)
    ensures TotalError in FilterErrors(req) <==> Required(req) > req.maxLength
    ensures FilterErrors(req) == [] <==>
              req.minLength > 0 && req.maxLength >= req.minLength &&
              !AnyCategoryNegative(req) && Required(req) <= req.maxLength
  {
  }

  /** The list holds only rule messages, at most one per rule. */
  lemma FilterErrorsBounded(req: PasswordRequirements)
    ensures |FilterErrors(req)| <= 4
    ensures forall i :: 0 <= i < |FilterErrors(req)| ==> IsRuleMessage(FilterErrors(req)[i])
  {
  }

  /** Messages appear in the order the rules are evaluated, so none appears twice. */
  lemma FilterErrorsInRuleOrder(req: PasswordRequirements)
    ensures forall i :: 0 < i < |FilterErrors(req)| ==>
              RuleIndex(FilterErrors(req)[i - 1]) < RuleIndex(FilterErrors(req)[i])
  {
  }

  /** One message covers any number of negative category minimums. */
  lemma NegativeReportedOnce(req: PasswordRequirements)
    ensures multiset(FilterErrors(req))[NegativeError] == if AnyCategoryNegative(req) then 1 else 0
  {
  }

  /** The filter's rule checks as the source runs them: appends to a growing list. */
  method CollectErrors(req: PasswordRequirements) returns (errors: seq<string>)
    ensures errors == FilterErrors(req)
  {
    errors := [];
    if req.minLength <= 0 {
      errors := errors + [MinLengthError];
    }
    if req.maxLength < req.minLength {
      errors := errors + [MaxLengthError];
    }
    if req.minUpperAlphaChars < 0 || req.minLowerAlphaChars < 0 ||
       req.minNumericChars < 0 || req.minSpecialChars < 0 {
      errors := errors + [NegativeError];
    }
    var totalRequired := req.minUpperAlphaChars + req.minLowerAlphaChars +
                         req.minNumericChars + req.minSpecialChars;
    if totalRequired > req.maxLength {
      errors := errors + [TotalError];
    }
  }

  /**
   * The filter against the generator: the generator accepts exactly the
   * requirements the filter accepts, plus those whose only fault for the
   * filter is a MinLength of zero.
   */
  lemma FilterVersusGenerator(req: PasswordRequirements)
    ensures Satisfiable(req) <==>
              FilterErrors(req) == [] || (req.minLength == 0 && FilterErrors(req) == [MinLengthError])
  {
    var errors := FilterErrors(req);
    if Satisfiable(req) && req.minLength == 0 {
      assert errors == [MinLengthError];
    }
    if errors == [MinLengthError] {
      assert MaxLengthError !in errors && NegativeError !in errors && TotalError !in errors;
    }
  }

  /** An action argument as bound by the framework: the requirements record, or anything else (including null). */
  datatype ArgumentValue = RequirementsValue(req: PasswordRequirements) | OtherValue

  /** The body of a Bad Request: the collected error list, or a plain message. */
  datatype BadRequestBody = ErrorList(errors: seq<string>) | PlainMessage(text: string)

  /** An action result: a Bad Request with its body, or one set by someone else. */
  datatype ActionResult = BadRequestObjectResult(body: BadRequestBody) | OtherResult

  datatype Option<T> = None | Some(value: T)

  /** The part of the action-executing context the filter reads and writes. */
  class ActionExecutingContext {
    const actionArguments: map<string, ArgumentValue>
    /** `None` stands for a null result: the action will run. */
    var result: Option<ActionResult>

    constructor (actionArguments: map<string, ArgumentValue>, result: Option<ActionResult>)
      ensures this.actionArguments == actionArguments && this.result == result
    {
      this.actionArguments := actionArguments;
      this.result := result;
    }
  }

  /** The requirements argument, when the action received one of the right type. */
  function BoundRequirements(arguments: map<string, ArgumentValue>): (r: Option<PasswordRequirements>)
    ensures r.Some? <==> RequirementsArgumentName in arguments && arguments[RequirementsArgumentName].RequirementsValue?
    ensures r.Some? ==> arguments[RequirementsArgumentName] == RequirementsValue(r.value)
  {
    if RequirementsArgumentName in arguments && arguments[RequirementsArgumentName].RequirementsValue? then
      Some(arguments[RequirementsArgumentName].req)
    else
      None
  }

  /**
   * `OnActionExecuting`: with well-typed requirements, the result becomes a
   * Bad Request carrying the error list exactly when that list is non-empty
   * and is left alone otherwise; without them, it becomes a Bad Request with
   * the fixed message.
   */
  method OnActionExecuting(context: ActionExecutingContext)
    modifies context
    ensures BoundRequirements(context.actionArguments).None? ==>
              context.result == Some(BadRequestObjectResult(PlainMessage(MissingBodyMessage)))
    ensures BoundRequirements(context.actionArguments).Some? ==>
              var errors := FilterErrors(BoundRequirements(context.actionArguments).value);
              (errors != [] ==> context.result == Some(BadRequestObjectResult(ErrorList(errors)))) &&
              (errors == [] ==> context.result == old(context.result))
  {
    var bound := BoundRequirements(context.actionArguments);
    if bound.Some? {
      var errors := CollectErrors(bound.value);
      if |errors| > 0 {
        context.result := Some(BadRequestObjectResult(ErrorList(errors)));
      }
    } else {
      context.result := Some(BadRequestObjectResult(PlainMessage(MissingBodyMessage)));
    }
  }
}
