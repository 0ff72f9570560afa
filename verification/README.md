# Redwan-JenGo chat core in Dafny

This project models the deterministic core of the Redwan-JenGo chat
application. That core has three parts:

- The situational rule engine `getSituationalResponse`. It is an ordered list
  of thirteen guarded rules over the user's current input and the chat
  history. The first rule whose guard holds decides the reply. When no guard
  holds, the result is `null`.
- The arithmetic front end `calculateExpression`. It trims the input,
  rewrites glyphs and brackets, and inserts `*` for implicit products. It
  then applies four validation guards. Only after that does it hand the
  string to the JavaScript evaluator, and it keeps only finite numeric
  results.
- The canned responder `getAiResponse`. It replies "Hi", "Hello" or "No"
  depending on the lower-cased, trimmed input.

It also models the chat `Message` record (`Chat.Message`: id, text, and a
sender that is `User` or `Ai`).

The modules are:

- `Options`: the `Option` type and a generic first-match search.
- `Text`: ECMAScript white space and `trim`, ASCII lower-casing, `\d`, `\w`,
  and `includes`.
- `Chat`: the message record.
- `NamePattern`: the regular expression `/(?:amar name|amar nam is)\s+(\w+)/i`.
- `Situational` and `SituationalFacts`: the rule engine and its properties.
- `MathParser` and `MathFacts`: the arithmetic front end and its properties.
- `Actions`: the responder and its properties.

The rule engine is written as a table. `Situational.Rules` lists the rules
in source order. `Situational.Fires` is each rule's guard and
`Situational.Reply` is its reply. The engine returns the reply of the first
rule that fires. Several quirks of the source are modelled as written:

- "Last message" means the second-to-last history entry.
- "Last AI message" means the *first* assistant message.
- A negation token makes the affective rule fall through to later rules.
- In the name pattern the first alternative wins. So "amar name is Rahim"
  records the name "is".

Two behaviours one might expect are not what the code does, and the model
follows the code:

- No guard rejects consecutive operators, or an operator at the start or end
  of an expression. Such expressions reach the evaluator, and JavaScript's
  grammar gives many of them a meaning: `1+-2` is -1 (unary minus), `2**3`
  is 8 (exponentiation), and `10//2` is 10, because `//2` starts a line
  comment. Others, such as `1+/2` or `*3`, make the evaluator throw and give
  no result. The model leaves this choice to the evaluator parameter.
- "ok" and "hmm" are not always answered by the non-committal rule. The
  exact-repeat rule comes first and can answer them instead (see
  `SituationalFacts.NonCommittalAlwaysAnswers`).

## Model

| member | source | states |
|---|---|---|
| Situational.GetSituationalResponse | src/lib/situational-logic.ts:10-109 | The engine returns `null` exactly when none of the thirteen situation guards holds. |
| Situational.SelectRule | src/lib/situational-logic.ts:14-108 | The chosen rule's guard holds, and every rule checked before it does not. No rule is chosen exactly when no guard holds. |
| Options.FirstIndex | src/lib/situational-logic.ts:12 | The left-to-right scan behind `find` and the name loop stops at the first element that satisfies the test. It finds nothing exactly when no element does. |
| Situational.LastMessage | src/lib/situational-logic.ts:11 | The engine's "last message" is absent exactly when the history has at most one entry. Otherwise it is the second-to-last entry, not the last one. |
| Situational.Fires | src/lib/situational-logic.ts:15-104 | The thirteen situation guards, one per rule, each as the `if` condition at the cited lines: substring tests on the input, exact membership in a token list, history-length bounds, and the sender and text of the "last message" and the first assistant message. |
| Situational.Reply | src/lib/situational-logic.ts:16-104 | The reply each rule returns. For the name question it is the recalled name or the unknown-name reply. For a vague question it is the echo of the "last message" text or the ask-for-detail reply. For "ok"/"hmm" it depends on whether an assistant message exists. |
| Situational.FirstAiMessage | src/lib/situational-logic.ts:12 | `history.find(m => m.sender === 'ai')` is absent exactly when no message is from the assistant. Otherwise it is the earliest assistant message. |
| Situational.RecallName | src/lib/situational-logic.ts:18-26 | The name loop yields nothing exactly when no user message matches the pattern. Otherwise it yields a non-empty word of `\w` characters captured from the earliest matching user message. |
| Situational.RecallIgnoresAiMessages | src/lib/situational-logic.ts:18-19 | Two histories with the same senders at every position and the same user-message texts recall the same name, whatever the assistant messages say. |
| Situational.RecallOnlyReadsUserMessages | src/lib/situational-logic.ts:18-26 | Recalling over a whole history gives the same name as recalling over its user messages alone. So adding, removing or editing assistant messages never changes the recalled name. |
| Situational.UserOnly | src/lib/situational-logic.ts:19 | The user messages of a history: every kept message is from the user and comes from the history, and every user message of the history is kept. |
| Situational.UserOnlyAppend | src/lib/situational-logic.ts:18-19 | Keeping the user messages distributes over concatenation, so they stay in their original order. |
| Situational.AiMessageDoesNotChangeRecall | src/lib/situational-logic.ts:18-26 | Inserting an assistant message anywhere in a history leaves the recalled name unchanged. |
| NamePattern.SpaceRun | src/lib/situational-logic.ts:20 | `\s+` consumes the longest run of white space starting at a position. The run ends at the end of the text or at a character that is not white space. |
| NamePattern.SpaceRunIsLeadingSpaces | src/lib/situational-logic.ts:20 | The `\s` run after the literal is the same white-space run that `trim` strips: both use one definition of white space. |
| NamePattern.WordRun | src/lib/situational-logic.ts:20 | `(\w+)` is greedy: it consumes the longest run of ASCII letters, digits and `_` starting at a position. |
| NamePattern.MatchAlternative | src/lib/situational-logic.ts:20 | One alternative matches at a position exactly when the case-folded literal is there, followed by at least one white-space character and at least one word character. The capture is a name, and it is exactly the whole run of word characters after the whole run of white space that follows the literal (`WordAfterSpace`). |
| NamePattern.MatchAt | src/lib/situational-logic.ts:20 | At one position the pattern matches exactly when one of its alternatives does. When "amar name" matches there, its capture is the one used; otherwise the capture of "amar nam is" is used. |
| NamePattern.DeclaredName | src/lib/situational-logic.ts:20-22 | `msg.text.match(..)` with `match[1]`: a captured name is a non-empty `\w` word, and there is none exactly when the pattern matches at no position. |
| NamePattern.LeftmostMatch | src/lib/situational-logic.ts:20 | `String.prototype.match` reports the leftmost position at which the pattern matches. No position before it matches. |
| NamePattern.DeclaredNameIsLeftmost | src/lib/situational-logic.ts:20 | The captured name comes from the leftmost match, and there is no capture exactly when the pattern matches nowhere. |
| NamePattern.NameIsShadowsNamIs | src/lib/situational-logic.ts:20 | In "amar name is Rahim" the first alternative matches first, so the capture is "is". |
| NamePattern.NamIsCapturesName | src/lib/situational-logic.ts:20 | The match ignores case: "AMAR NAM IS Rahim" captures "Rahim" with its case kept. |
| SituationalFacts.Answers | src/lib/situational-logic.ts:14-108 | When a rule's guard holds and no earlier rule's guard holds, the engine returns that rule's reply. |
| SituationalFacts.RuleOrder | src/lib/situational-logic.ts:14-108 | A rule answers if and only if its guard holds and no earlier rule's guard holds. |
| SituationalFacts.NameQueryPrecedence | src/lib/situational-logic.ts:15-32 | A name question always gets the recalled-name reply, or the "I don't know your name" reply, whatever the history holds. |
| SituationalFacts.EarlyFarewellGate | src/lib/situational-logic.ts:36-38 | The early farewell answers if and only if the history has at most two entries, the input contains "bye" or "বিদায়", and it is not a name question. |
| SituationalFacts.VagueFollowUpAnswer | src/lib/situational-logic.ts:41-46 | A bare vague word is always answered. The reply echoes the second-to-last entry when it exists with non-empty text, and asks for detail otherwise. |
| SituationalFacts.AffectiveAckGate | src/lib/situational-logic.ts:49-56 | The affective reply requires all three: the first assistant message asked how the user is, the input has a positive token, and it has no negation token. |
| SituationalFacts.NegationFallsThrough | src/lib/situational-logic.ts:49-56 | With a negation token in the input, the engine answers as if the affective rule were removed from the list. |
| SituationalFacts.RepeatedGreetingGate | src/lib/situational-logic.ts:59-61 | A bare greeting in a history of more than three entries always gets the "already talking" reply. The rule never answers otherwise. |
| SituationalFacts.IdentityRepeatGate | src/lib/situational-logic.ts:79-81 | The identity-repeat reply requires more than five history entries and an identity phrase in the input. |
| SituationalFacts.ExactRepeatGate | src/lib/situational-logic.ts:84-86 | The repeat reply requires a second-to-last entry from the user whose lower-cased text equals the input. |
| SituationalFacts.NonCommittalAlwaysAnswers | src/lib/situational-logic.ts:84-94 | "ok", "hmm" and their Bengali forms are always answered. The reply is the repeat reply when the user repeats themselves, otherwise "understood" if any assistant message exists, otherwise "hmm". |
| SituationalFacts.ByeAsSecondMessage | src/lib/situational-logic.ts:36-38 | "bye" after only the welcome message gets the early-farewell reply. |
| SituationalFacts.NameQuestionRecallsFirstCapture | src/lib/situational-logic.ts:15-28 | After "amar name is Rahim", a name question is answered with the name "is". |
| MathParser.ReplaceAll | src/lib/math-parser.ts:12-15 | A global one-character-class replace keeps the length, replaces every character in the class, and keeps every other character in place. |
| MathParser.SubstituteGlyphs | src/lib/math-parser.ts:12-13 | Every `÷` becomes `/` and every `×` becomes `*`, position by position. No glyph remains. |
| MathParser.NormalizeBrackets | src/lib/math-parser.ts:14-15 | Curly, square and angle brackets become round ones, position by position. None remain. |
| MathParser.InsertImplicitMultiplication | src/lib/math-parser.ts:16 | After the rewrite no digit is directly followed by `(`, the output is at least as long as the input, and the first character is unchanged. |
| MathFacts.ImplicitMultiplicationMatchesReference | src/lib/math-parser.ts:16 | The global `$1*(` rewrite equals a character-by-character copy that puts a `*` between each digit and the `(` right after it, and changes nothing else. |
| MathParser.Sanitize | src/lib/math-parser.ts:10-16 | The sanitising chain (trim, glyphs, brackets, implicit multiplication) leaves no digit directly followed by `(`, and is at least as long as the trimmed input. |
| MathParser.Validate | src/lib/math-parser.ts:22-39 | An expression passes the guards exactly when it is non-empty, uses only allowed characters, and has a digit and an operator. |
| MathParser.CalculateExpression | src/lib/math-parser.ts:8-56 | A result is returned only for a sanitised string that passed every guard and that the evaluator turned into a finite number, and that number is the result. Every such string does give its number. |
| MathFacts.ImplicitMultiplicationOnlyAddsStars | src/lib/math-parser.ts:16 | Ignoring `*`, the rewrite leaves the expression unchanged. |
| MathFacts.ImplicitMultiplicationLength | src/lib/math-parser.ts:16 | Exactly one `*` is inserted per digit-`(` pair of the input. |
| MathFacts.ImplicitMultiplicationKeepsChars | src/lib/math-parser.ts:16 | Every input character occurs in the output. |
| MathFacts.ImplicitMultiplicationIdentity | src/lib/math-parser.ts:16 | An expression without digit-`(` pairs is left unchanged. |
| MathFacts.ForeignCharacterRejected | src/lib/math-parser.ts:10-25 | A character that no rewrite touches and the allow-list does not admit makes the result `null`, whatever the evaluator does. |
| MathFacts.LetterOrEqualsRejected | src/lib/math-parser.ts:22-25 | Any ASCII letter or `=` in the expression gives `null`. |
| MathFacts.EvaluatorOnlySeesValidated | src/lib/math-parser.ts:22-45 | The evaluator sees only the sanitised expression: two evaluators that agree on it give the same result. An expression the guards reject gives `null` under every evaluator. |
| MathFacts.OperatorsOnlyGuardIsRedundant | src/lib/math-parser.ts:29-39 | Any string the digit guard lets through passes the operators-only guard, so that guard never rejects anything. |
| MathFacts.RejectedGivesNothing | src/lib/math-parser.ts:29-35 | An expression without a digit or without an operator gives `null`. |
| MathFacts.BareNumbersRejected | src/lib/math-parser.ts:29-35 | "42" and "(5)" give `null` for lack of an operator. |
| MathFacts.ImplicitProductReachesEvaluator | src/lib/math-parser.ts:16-55 | "5(2)" is sanitised to "5*(2)", passes every guard, and yields exactly the evaluator's finite result. |
| Actions.GetAiResponse | src/app/actions.ts:12-36 | The responder always replies with one of "Hi", "Hello" or "No". |
| Actions.TrimLowerCommute | src/app/actions.ts:16 | Trimming and lower-casing can be done in either order. |
| Actions.ReplyCharacterisation | src/app/actions.ts:16-35 | The reply is "Hi" if and only if the trimmed, lower-cased input is "hi", and "Hello" if and only if it is "hello". It is "No" otherwise. |
| Actions.ReplyIgnoresCase | src/app/actions.ts:16 | Inputs that agree up to ASCII case get the same reply. |
| Actions.ReplyIgnoresPadding | src/app/actions.ts:16 | Surrounding white space does not change the reply. |
| Actions.PaddedShoutedHello | src/app/actions.ts:16-21 | "  HeLLo \n" gets "Hello". |
| Text.Trim | src/lib/math-parser.ts:11 | `trim` removes a maximal white-space prefix and suffix and nothing else. The result neither starts nor ends with white space. |
| Text.TrimIgnoresPadding | src/app/actions.ts:16 | Adding white space before or after a string does not change its `trim`. |
| Text.TrimIdempotent | src/lib/math-parser.ts:11 | Trimming twice is trimming once. |
| Text.ToLower | src/app/actions.ts:16 | `toLowerCase` keeps the length and lower-cases position by position, changing exactly the ASCII capitals, each into its own lower-case letter (`LowerChar`: `A`-`Z` map to `a`-`z` in order; see "Left out"). |
| Text.Contains | src/lib/situational-logic.ts:15 | `String.prototype.includes`: the token is a prefix of the text or of one of its suffixes. |
| Text.ContainsIffOccurs | src/lib/situational-logic.ts:15 | `includes` holds exactly when the token occurs at some position. |
| Options.FindSkipsNonMatching | src/lib/situational-logic.ts:14-108 | Removing an element that does not match leaves the first-match search unchanged. |

## Left out

- The React chat screen, `localStorage` persistence, the two-second reply delay, and the generative flows are I/O and UI. They are not part of this model.
- The history argument that the chat screen passes to `getAiResponse` is ignored by the source, so the model takes only the input.
- `getSituationalResponse` is not called anywhere in the source's request path. It is modelled on its own.
- The source has no lexicon, similarity scorer, intent classifier, normaliser or orchestrator, so none is part of this model.
- MathParser.CalculateExpression: the JavaScript evaluator (`new Function`) is a parameter. Number parsing, IEEE-754 arithmetic and rounding are not modelled, and finite numbers are reals.
- Text.ToLower: `toLowerCase` is modelled as ASCII folding. For `getAiResponse` this agrees with Unicode lower-casing, because no other character lower-cases to exactly "hi" or "hello". In the exact-repeat rule, a history text with non-ASCII capitals can repeat the input under Unicode lower-casing but not under this model.
- Strings are sequences of code points, not UTF-16 code units. This changes nothing for `includes` and the regular expressions used here, whose literals are all single code units.
- `Message.id` is carried but never inspected, as in the source.
