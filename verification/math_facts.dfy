/** Properties of the arithmetic front end: what implicit multiplication
    inserts, which characters can never reach the evaluator, and how the
    validation guards relate to each other. */
module MathFacts {
  import opened Options
  import opened Text
  import opened MathParser

  /** `s` without its `*` characters. */
  function DropStars(s: string): string
  {
    if |s| == 0 then [] else (if s[0] == '*' then [] else [s[0]]) + DropStars(s[1..])
  }

  /** Number of positions where a digit is immediately followed by `(`. */
  function CountDigitBeforeParen(s: string): nat
  {
    if |s| < 2 then 0
    else (if DigitBeforeParen(s, 0) then 1 else 0) + CountDigitBeforeParen(s[1..])
  }

  lemma DropStarsCons(c: char, t: string)
    ensures DropStars([c] + t) == (if c == '*' then [] else [c]) + DropStars(t)
  {
    assert ([c] + t)[1..] == t;
  }

  /** Implicit multiplication only inserts `*`: every other character, digits
      included, keeps its relative order. */
  lemma {:induction false} ImplicitMultiplicationOnlyAddsStars(s: string)
    ensures DropStars(InsertImplicitMultiplication(s)) == DropStars(s)
  {
    if |s| > 0 {
      var r := InsertImplicitMultiplication(s);
      if DigitBeforeParen(s, 0) {
        var rest := InsertImplicitMultiplication(s[2..]);
        ImplicitMultiplicationOnlyAddsStars(s[2..]);
        assert r == [s[0]] + (['*'] + (['('] + rest));
        DropStarsCons(s[0], ['*'] + (['('] + rest));
        DropStarsCons('*', ['('] + rest);
        DropStarsCons('(', rest);
        assert s == [s[0]] + ([s[1]] + s[2..]);
        DropStarsCons(s[0], [s[1]] + s[2..]);
        DropStarsCons(s[1], s[2..]);
      } else {
        var rest := InsertImplicitMultiplication(s[1..]);
        ImplicitMultiplicationOnlyAddsStars(s[1..]);
        assert r == [s[0]] + rest;
        DropStarsCons(s[0], rest);
        assert s == [s[0]] + s[1..];
        DropStarsCons(s[0], s[1..]);
      }
    }
  }

  /** Reference for implicit multiplication, one character at a time: each
      character is copied, and a `*` follows it exactly when it is a digit
      and the next character is `(`. */
  function StarBetweenDigitAndParen(s: string): string
  {
    if |s| == 0 then []
    else [s[0]] + (if DigitBeforeParen(s, 0) then "*" else "") + StarBetweenDigitAndParen(s[1..])
  }

  /** The left-to-right rewrite puts a `*` exactly between each digit and
      the `(` that follows it, and changes nothing else. */
  lemma {:induction false} ImplicitMultiplicationMatchesReference(s: string)
    ensures InsertImplicitMultiplication(s) == StarBetweenDigitAndParen(s)
  {
    if |s| > 0 {
      if DigitBeforeParen(s, 0) {
        ImplicitMultiplicationMatchesReference(s[2..]);
        var tail := s[1..];
        assert tail[0] == '(' && !DigitBeforeParen(tail, 0);
        assert tail[1..] == s[2..];
        assert StarBetweenDigitAndParen(tail) == ['('] + StarBetweenDigitAndParen(s[2..]);
      } else {
        ImplicitMultiplicationMatchesReference(s[1..]);
      }
    }
  }

  /** Exactly one `*` is inserted for each digit that is immediately followed
      by `(`. */
  lemma {:induction false} ImplicitMultiplicationLength(s: string)
    ensures |InsertImplicitMultiplication(s)| == |s| + CountDigitBeforeParen(s)
  {
    if |s| > 0 {
      if DigitBeforeParen(s, 0) {
        ImplicitMultiplicationLength(s[2..]);
        assert s[1..][1..] == s[2..];
        assert !DigitBeforeParen(s[1..], 0);
      } else {
        ImplicitMultiplicationLength(s[1..]);
      }
    }
  }

  /** Every character of the input survives implicit multiplication. */
  lemma {:induction false} ImplicitMultiplicationKeepsChars(s: string, i: nat)
    requires i < |s|
    ensures s[i] in InsertImplicitMultiplication(s)
  {
    var r := InsertImplicitMultiplication(s);
    if i > 0 {
      if DigitBeforeParen(s, 0) {
        if i == 1 {
          assert r[2] == s[1];
        } else {
          ImplicitMultiplicationKeepsChars(s[2..], i - 2);
          assert r[3..] == InsertImplicitMultiplication(s[2..]);
        }
      } else {
        ImplicitMultiplicationKeepsChars(s[1..], i - 1);
        assert r[1..] == InsertImplicitMultiplication(s[1..]);
      }
    }
  }

  /** A character that the rewrites do not touch and the allow-list does not
      admit makes the whole expression fail, whatever the evaluator would
      have done: letters, `=`, quotes, semicolons and the like never reach
      it. */
  lemma ForeignCharacterRejected(expression: string, i: nat, evaluate: string -> Evaluation)
    requires i < |expression|
    requires !IsAllowed(expression[i])
    requires !IsDivisionSign(expression[i]) && !IsMultiplicationSign(expression[i])
    requires !IsOpeningBracket(expression[i]) && !IsClosingBracket(expression[i])
    ensures CalculateExpression(expression, evaluate) == None
  {
    var c := expression[i];
    TrimKeepsNonSpace(expression, i);
    var t := Trim(expression);
    var k :| 0 <= k < |t| && t[k] == c;
    var g := SubstituteGlyphs(t);
    assert g[k] == c;
    var b := NormalizeBrackets(g);
    assert b[k] == c;
    ImplicitMultiplicationKeepsChars(b, k);
    assert !OnlyAllowed(Sanitize(expression));
  }

  /** In particular any ASCII letter or `=` yields no result. */
  lemma LetterOrEqualsRejected(expression: string, i: nat, evaluate: string -> Evaluation)
    requires i < |expression|
    requires IsUpper(expression[i]) || IsLower(expression[i]) || expression[i] == '='
    ensures CalculateExpression(expression, evaluate) == None
  {
    ForeignCharacterRejected(expression, i, evaluate);
  }

  /** The evaluator is consulted on the sanitised expression and nothing
      else: two evaluators that agree there give the same result, and an
      expression the guards reject gives `None` whatever the evaluator. */
  lemma EvaluatorOnlySeesValidated(expression: string, e1: string -> Evaluation, e2: string -> Evaluation)
    ensures e1(Sanitize(expression)) == e2(Sanitize(expression)) ==>
      CalculateExpression(expression, e1) == CalculateExpression(expression, e2)
    ensures Validate(Sanitize(expression)).Some? ==> CalculateExpression(expression, e1) == None
  {
  }

  /** The operators-only guard never rejects anything the digit guard let
      through. */
  lemma OperatorsOnlyGuardIsRedundant(s: string)
    requires HasDigit(s)
    ensures !OperatorsOnly(s)
  {
  }

  /** Implicit multiplication leaves a string without digit-`(` pairs
      alone. */
  lemma {:induction false} ImplicitMultiplicationIdentity(s: string)
    requires NoDigitBeforeParen(s)
    ensures InsertImplicitMultiplication(s) == s
  {
    if |s| > 0 {
      assert !DigitBeforeParen(s, 0);
      assert NoDigitBeforeParen(s[1..]) by {
        forall i | 0 <= i < |s[1..]| ensures !DigitBeforeParen(s[1..], i) {
          assert !DigitBeforeParen(s, i + 1);
        }
      }
      ImplicitMultiplicationIdentity(s[1..]);
      assert s == [s[0]] + s[1..];
    }
  }

  lemma SubstituteGlyphsIdentity(s: string)
    requires forall i :: 0 <= i < |s| ==> s[i] != '÷' && s[i] != '×'
    ensures SubstituteGlyphs(s) == s
  {
  }

  lemma NormalizeBracketsIdentity(s: string)
    requires forall i :: 0 <= i < |s| ==> !IsOpeningBracket(s[i]) && !IsClosingBracket(s[i])
    ensures NormalizeBrackets(s) == s
  {
  }

  /** The rewrites before implicit multiplication leave alone an expression
      that has no surrounding white space, no glyph and no alternative
      bracket. */
  lemma SanitizeOnlyInserts(s: string)
    requires s == [] || (!IsSpace(s[0]) && !IsSpace(s[|s| - 1]))
    requires forall i :: 0 <= i < |s| ==> s[i] != '÷' && s[i] != '×'
    requires forall i :: 0 <= i < |s| ==> !IsOpeningBracket(s[i]) && !IsClosingBracket(s[i])
    ensures Sanitize(s) == InsertImplicitMultiplication(s)
  {
    TrimOfUnpadded(s);
    SubstituteGlyphsIdentity(s);
    NormalizeBracketsIdentity(s);
    assert NormalizeBrackets(SubstituteGlyphs(Trim(s))) == s;
  }

  /** An expression that the validation guards turn away gives no result. */
  lemma RejectedGivesNothing(expression: string, evaluate: string -> Evaluation)
    requires !HasOperator(Sanitize(expression)) || !HasDigit(Sanitize(expression))
    ensures CalculateExpression(expression, evaluate) == None
  {
  }

  lemma BareNumberSanitized(s: string)
    requires s == "42" || s == "(5)"
    ensures Sanitize(s) == s
  {
    SanitizeOnlyInserts(s);
    assert NoDigitBeforeParen(s);
    ImplicitMultiplicationIdentity(s);
  }

  lemma BareNumbersHaveNoOperator()
    ensures !HasOperator("42") && !HasOperator("(5)")
  {
  }

  /** A bare number, with or without brackets, has no operator and gives no
      result. */
  lemma BareNumbersRejected(evaluate: string -> Evaluation)
    ensures CalculateExpression("42", evaluate) == None
    ensures CalculateExpression("(5)", evaluate) == None
  {
    BareNumberSanitized("42");
    BareNumberSanitized("(5)");
    BareNumbersHaveNoOperator();
    RejectedGivesNothing("42", evaluate);
    RejectedGivesNothing("(5)", evaluate);
  }

  lemma InsertIntoImplicitProduct()
    ensures InsertImplicitMultiplication("5(2)") == "5*(2)"
  {
    var t := "5(2)";
    assert DigitBeforeParen(t, 0);
    assert t[2..] == "2)";
    ImplicitMultiplicationIdentity("2)");
  }

  lemma SanitizeImplicitProduct()
    ensures Sanitize("5(2)") == "5*(2)"
  {
    SanitizeOnlyInserts("5(2)");
    InsertIntoImplicitProduct();
  }

  lemma ImplicitProductPassesGuards()
    ensures Validate("5*(2)").None?
  {
    var s := "5*(2)";
    assert OnlyAllowed(s);
    assert IsDigit(s[0]) && IsOperator(s[1]);
  }

  /** "5(2)" gets an inserted `*`, passes every guard and reaches the
      evaluator as "5*(2)". */
  lemma ImplicitProductReachesEvaluator(evaluate: string -> Evaluation)
    ensures Sanitize("5(2)") == "5*(2)"
    ensures CalculateExpression("5(2)", evaluate) ==
      match evaluate("5*(2)")
      case Returned(NumberValue(Finite(x))) => Some(x)
      case _ => None
  {
    SanitizeImplicitProduct();
    ImplicitProductPassesGuards();
  }
}
