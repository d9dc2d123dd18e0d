/** The character filter that `mcp-calculator` applies before handing the
    expression to Python's `eval`. Only the filter and its two outcomes are
    modelled: either the fixed rejection message is returned, or the
    expression, unchanged, is what `eval` receives. */
module Calculator {

  /** The 18 characters an expression may contain. */
  const AllowedChars := "0123456789+-*/(). "

  const InvalidCharactersMessage := "Invalid characters in expression."

  /** What the tool body does with an expression once filtered. */
  datatype Outcome =
    | Rejected(message: string)   // returned at once; evaluation is never reached
    | Evaluated(expression: string)  // the string passed on to the evaluator

  /** Some character of `expr` lies outside the allowed alphabet: the
      `any(char not in allowed_chars for char in expression)` test. */
  function HasDisallowedChar(expr: string): (r: bool)
    ensures r <==> exists i :: 0 <= i < |expr| && expr[i] !in AllowedChars
  {
    if expr == [] then false
    else if expr[0] !in AllowedChars then true
    else
      var rest := HasDisallowedChar(expr[1..]);
      assert forall i :: 1 <= i < |expr| ==> expr[i] == expr[1..][i - 1];
      rest
  }

  /** The tool body up to the call to `eval`. */
  function Filter(expr: string): (r: Outcome)
    ensures r.Rejected? <==> exists i :: 0 <= i < |expr| && expr[i] !in AllowedChars
    ensures r.Rejected? ==> r.message == InvalidCharactersMessage
    ensures r.Evaluated? ==> r.expression == expr && forall i :: 0 <= i < |expr| ==> expr[i] in AllowedChars
  {
    if HasDisallowedChar(expr) then Rejected(InvalidCharactersMessage) else Evaluated(expr)
  }

  /** The empty expression passes the filter. */
  lemma EmptyExpressionPasses()
    ensures Filter("") == Evaluated("")
  {
  }

  /** An expression that reaches the evaluator contains no letter and no
      underscore, so no identifier, keyword or function call. */
  lemma EvaluatedHasNoIdentifier(expr: string)
    requires Filter(expr).Evaluated?
    ensures forall i :: 0 <= i < |expr| ==> !('a' <= expr[i] <= 'z') && !('A' <= expr[i] <= 'Z') && expr[i] != '_'
  {
    forall i | 0 <= i < |expr|
      ensures !('a' <= expr[i] <= 'z') && !('A' <= expr[i] <= 'Z') && expr[i] != '_'
    {
      assert expr[i] in AllowedChars;
    }
  }

  /** The filter is a character test, not a grammar: Python's power and
      floor-division operators are made of allowed characters and pass. */
  lemma PowerAndFloorDivisionPass()
    ensures Filter("9**9") == Evaluated("9**9")
    ensures Filter("7//2") == Evaluated("7//2")
  {
    assert !HasDisallowedChar("9**9");
    assert !HasDisallowedChar("7//2");
  }
}
