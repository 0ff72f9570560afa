/** `calculateExpression`: the sanitising rewrites and validation guards in
    front of the JavaScript evaluator, with the evaluator itself passed in
    as an uninterpreted oracle. */
module MathParser {
  import opened Options
  import opened Text

  // ---------------------------------------------------------------------
  // What the evaluator can produce
  // ---------------------------------------------------------------------

  /** A JavaScript number. Finite values are written as reals; the rounding
      of IEEE-754 arithmetic stays inside the evaluator. */
  datatype Number = Finite(value: real) | NaN | Infinity(negative: bool)

  /** The value `new Function("return " + s)()` returns: a number, or
      something whose `typeof` is not "number". */
  datatype JsValue = NumberValue(n: Number) | OtherValue

  /** One run of the evaluator: it throws, or it returns a value. */
  datatype Evaluation = Threw | Returned(value: JsValue)

  // ---------------------------------------------------------------------
  // Sanitising
  // ---------------------------------------------------------------------

  predicate IsDivisionSign(c: char) { c == '÷' }
  predicate IsMultiplicationSign(c: char) { c == '×' }
  /** The character class `[{[<]`. */
  predicate IsOpeningBracket(c: char) { c == '{' || c == '[' || c == '<' }
  /** The character class `[}\]>]`. */
  predicate IsClosingBracket(c: char) { c == '}' || c == ']' || c == '>' }

  /** `s.replace(/[class]/g, replacement)` for a one-character class: every character
      in the class is replaced, every other character is kept in place. */
  function ReplaceAll(s: string, inClass: char -> bool, replacement: char): (r: string)
    ensures |r| == |s|
    ensures forall i :: 0 <= i < |s| ==> r[i] == (if inClass(s[i]) then replacement else s[i])
  {
    if |s| == 0 then []
    else [if inClass(s[0]) then replacement else s[0]] + ReplaceAll(s[1..], inClass, replacement)
  }

  /** The division and multiplication glyphs become `/` and `*`. */
  function SubstituteGlyphs(s: string): (r: string)
    ensures |r| == |s|
    ensures forall i :: 0 <= i < |r| ==> r[i] != '÷' && r[i] != '×'
    ensures forall i :: 0 <= i < |s| ==>
      r[i] == (if s[i] == '÷' then '/' else if s[i] == '×' then '*' else s[i])
  {
    ReplaceAll(ReplaceAll(s, IsDivisionSign, '/'), IsMultiplicationSign, '*')
  }

  /** Curly, square and angle brackets become round ones. */
  function NormalizeBrackets(s: string): (r: string)
    ensures |r| == |s|
    ensures forall i :: 0 <= i < |r| ==> !IsOpeningBracket(r[i]) && !IsClosingBracket(r[i])
    ensures forall i :: 0 <= i < |s| ==>
      r[i] == (if IsOpeningBracket(s[i]) then '(' else if IsClosingBracket(s[i]) then ')' else s[i])
  {
    ReplaceAll(ReplaceAll(s, IsOpeningBracket, '('), IsClosingBracket, ')')
  }

  /** A digit immediately followed by `(` at position `i`. */
  predicate DigitBeforeParen(s: string, i: int)
  {
    0 <= i < |s| - 1 && IsDigit(s[i]) && s[i + 1] == '('
  }

  /** No digit is immediately followed by `(` anywhere in `s`. */
  predicate NoDigitBeforeParen(s: string)
  {
    forall i :: 0 <= i < |s| ==> !DigitBeforeParen(s, i)
  }

  /** Gluing two strings without a digit-`(` pair creates one only across
      the seam. */
  lemma NoDigitBeforeParenAppend(head: string, rest: string)
    requires NoDigitBeforeParen(head) && NoDigitBeforeParen(rest)
    requires |head| > 0 && |rest| > 0 ==> !IsDigit(head[|head| - 1]) || rest[0] != '('
    ensures NoDigitBeforeParen(head + rest)
  {
    var r := head + rest;
    forall i | 0 <= i < |r|
      ensures !DigitBeforeParen(r, i)
    {
      if i < |head| - 1 {
        assert !DigitBeforeParen(head, i);
      } else if i >= |head| {
        assert !DigitBeforeParen(rest, i - |head|);
      }
    }
  }

  /** `s.replace(/(\d)\(/g, '$1*(')`: the global replace scans left to right
      and, at each digit followed by `(`, emits digit, `*` and `(` and goes
      on after the `(`. */
  function InsertImplicitMultiplication(s: string): (r: string)
    ensures |s| <= |r|
    ensures |s| > 0 ==> |r| > 0 && r[0] == s[0]
    ensures NoDigitBeforeParen(r)
  {
    if |s| == 0 then []
    else if DigitBeforeParen(s, 0) then
      var rest := InsertImplicitMultiplication(s[2..]);
      NoDigitBeforeParenAppend([s[0], '*', '('], rest);
      [s[0], '*', '('] + rest
    else
      var rest := InsertImplicitMultiplication(s[1..]);
      NoDigitBeforeParenAppend([s[0]], rest);
      [s[0]] + rest
  }

  /** The whole sanitising chain, in the order of the source. */
  function Sanitize(expression: string): (r: string)
    ensures NoDigitBeforeParen(r)
    ensures |Trim(expression)| <= |r|
  {
    InsertImplicitMultiplication(NormalizeBrackets(SubstituteGlyphs(Trim(expression))))
  }

  // ---------------------------------------------------------------------
  // Validation
  // ---------------------------------------------------------------------

  predicate IsOperator(c: char)
  {
    c == '+' || c == '-' || c == '*' || c == '/'
  }

  /** The character class `[0-9\s\+\-\*\/\(\)\.]`. */
  predicate IsAllowed(c: char)
  {
    IsDigit(c) || IsSpace(c) || IsOperator(c) || c == '(' || c == ')' || c == '.'
  }

  /** `/^[0-9\s\+\-\*\/\(\)\.]+$/`. */
  predicate OnlyAllowed(s: string)
  {
    |s| > 0 && forall i :: 0 <= i < |s| ==> IsAllowed(s[i])
  }

  /** `/\d/`. */
  predicate HasDigit(s: string)
  {
    exists i :: 0 <= i < |s| && IsDigit(s[i])
  }

  /** `/[\+\-\*\/]/`. */
  predicate HasOperator(s: string)
  {
    exists i :: 0 <= i < |s| && IsOperator(s[i])
  }

  /** `/^[\s\+\-\*\/]+$/`. */
  predicate OperatorsOnly(s: string)
  {
    |s| > 0 && forall i :: 0 <= i < |s| ==> IsSpace(s[i]) || IsOperator(s[i])
  }

  /** Why a sanitised expression is turned away before evaluation. */
  datatype Rejection = DisallowedCharacter | NoDigit | NoOperator | OnlyOperators

  /** The four guards, in the order of the source; `None` lets the
      expression through to the evaluator. */
  function Validate(s: string): (r: Option<Rejection>)
    ensures r.None? <==> OnlyAllowed(s) && HasDigit(s) && HasOperator(s)
  {
    if !OnlyAllowed(s) then Some(DisallowedCharacter)
    else if !HasDigit(s) then Some(NoDigit)
    else if !HasOperator(s) then Some(NoOperator)
    else if OperatorsOnly(s) then Some(OnlyOperators)
    else None
  }

  // ---------------------------------------------------------------------
  // The whole function
  // ---------------------------------------------------------------------

  /** `calculateExpression`. The result is a finite number, or `None` for
      every rejected expression, every exception and every non-finite or
      non-number result. The evaluator is consulted only on a sanitised
      string that passed all the guards. */
  function CalculateExpression(expression: string, evaluate: string -> Evaluation): (r: Option<real>)
    ensures var s := Sanitize(expression);
      r.Some? ==> (OnlyAllowed(s) && HasDigit(s) && HasOperator(s)
                   && evaluate(s) == Returned(NumberValue(Finite(r.value))))
    ensures var s := Sanitize(expression);
      (OnlyAllowed(s) && HasDigit(s) && HasOperator(s) && evaluate(s).Returned?
       && evaluate(s).value.NumberValue? && evaluate(s).value.n.Finite?)
      ==> r == Some(evaluate(s).value.n.value)
  {
    var s := Sanitize(expression);
    if Validate(s).Some? then None
    else
      match evaluate(s)
      case Threw => None
      case Returned(NumberValue(Finite(x))) => Some(x)
      case Returned(_) => None
  }
}
