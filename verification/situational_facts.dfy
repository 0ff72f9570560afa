/** Properties of the situational rule engine: precedence between the rules,
    the history-length gates, the fall-through of the affective rule, and
    the inputs that always get a reply. */
module SituationalFacts {
  import opened Options
  import opened Text
  import opened Chat
  import opened Situational

  /** A rule answers exactly when its guard holds and no rule before it in
      `Rules` fires. */
  lemma RuleOrder(input: string, history: seq<Message>, rule: Rule)
    ensures SelectRule(input, history) == Some(rule) <==>
      Fires(rule, input, history)
      && forall j :: 0 <= j < Rank(rule) ==> !Fires(Rules[j], input, history)
  {
    var p := FiresOn(input, history);
    var k := Rank(rule);
    forall j | 0 <= j < |Rules| && Rules[j] == Rules[k]
      ensures j == k
    {
      RulesAreRanked(j);
    }
    FindAt(Rules, p, k);
    SelectRuleIsFind(input, history);
  }

  /** A rule that fires after no earlier rule fired gives the reply. */
  lemma Answers(input: string, history: seq<Message>, rule: Rule)
    requires Fires(rule, input, history)
    requires forall j :: 0 <= j < Rank(rule) ==> !Fires(Rules[j], input, history)
    ensures GetSituationalResponse(input, history) == Some(Reply(rule, input, history))
  {
    RuleOrder(input, history, rule);
  }

  /** A name question is answered from the recalled name, whatever else the
      input or the history contain: no later rule is consulted. */
  lemma NameQueryPrecedence(input: string, history: seq<Message>)
    requires Contains(input, "amar nam ki") || Contains(input, "amar name ki")
    ensures GetSituationalResponse(input, history) ==
      Some(match RecallName(history)
           case Some(name) => NameKnownReply(name)
           case None => NameUnknownReply)
  {
    assert Fires(NameQuery, input, history);
    RuleOrder(input, history, NameQuery);
  }

  /** The early-farewell rule answers exactly when the history has at most
      two entries, the input mentions a farewell, and it is not a name
      question. */
  lemma EarlyFarewellGate(input: string, history: seq<Message>)
    ensures SelectRule(input, history) == Some(EarlyFarewell) <==>
      |history| <= 2
      && (Contains(input, "bye") || Contains(input, FarewellTokens[1]))
      && !ContainsAny(input, NameQueryTokens)
  {
    RuleOrder(input, history, EarlyFarewell);
    ContainsAnyOfTwo(input, FarewellTokens[0], FarewellTokens[1]);
    assert FarewellTokens == [FarewellTokens[0], FarewellTokens[1]];
  }

  lemma VagueTokenSkipsEarlierRules(input: string, history: seq<Message>)
    requires input in VagueTokens
    ensures !Fires(NameQuery, input, history) && !Fires(EarlyFarewell, input, history)
  {
    NoTokenContained(input, NameQueryTokens, "xx");
    if input == "kivabe" {
      NoTokenContained(input, FarewellTokens, "y\U{09AC}");
    } else {
      NoTokenContained(input, FarewellTokens, "b\U{09AC}");
    }
  }

  lemma VagueReply(input: string, history: seq<Message>)
    ensures Reply(VagueFollowUp, input, history) ==
      if |history| > 1 && history[|history| - 2].text != ""
      then EchoReply(history[|history| - 2].text)
      else AskDetailReply
  {
  }

  /** A bare vague question always gets a reply: the second-to-last entry of
      the history is echoed when it exists and has text, otherwise the user
      is asked for detail. */
  lemma VagueFollowUpAnswer(input: string, history: seq<Message>)
    requires input in VagueTokens
    ensures GetSituationalResponse(input, history) ==
      Some(if |history| > 1 && history[|history| - 2].text != ""
           then EchoReply(history[|history| - 2].text)
           else AskDetailReply)
  {
    VagueTokenSkipsEarlierRules(input, history);
    assert Rules[0] == NameQuery && Rules[1] == EarlyFarewell;
    Answers(input, history, VagueFollowUp);
    VagueReply(input, history);
  }

  /** The affective acknowledgement answers only when the FIRST assistant
      message of the history asked how the user is, the input has a positive
      token, and the input has no negation token. */
  lemma AffectiveAckGate(input: string, history: seq<Message>)
    ensures SelectRule(input, history) == Some(AffectiveAck) ==>
      && (exists k :: (0 <= k < |history| && history[k].sender == Ai
          && (forall j :: 0 <= j < k ==> history[j].sender != Ai)
          && Contains(history[k].text, HowAreYou)))
      && ContainsAny(input, PositiveTokens)
      && !ContainsAny(input, NegationTokens)
  {
    if SelectRule(input, history) == Some(AffectiveAck) {
      assert Fires(AffectiveAck, input, history);
    }
  }

  /** A negation token does not stop the engine: the affective rule is passed
      over, and the engine answers as if that rule were not in the list. */
  lemma NegationFallsThrough(input: string, history: seq<Message>)
    requires ContainsAny(input, NegationTokens)
    ensures SelectRule(input, history) == Find(Without(Rules, AffectiveAck), FiresOn(input, history))
  {
    assert !FiresOn(input, history)(AffectiveAck);
    FindSkipsNonMatching(Rules, FiresOn(input, history), AffectiveAck);
    SelectRuleIsFind(input, history);
  }

  /** `SelectRule` is the generic first-match search over `Rules`. */
  lemma SelectRuleIsFind(input: string, history: seq<Message>)
    ensures SelectRule(input, history) == Find(Rules, FiresOn(input, history))
  {
  }

  lemma GreetingSkipsEarlierRules(input: string, history: seq<Message>)
    requires input in GreetingTokens
    ensures forall j :: 0 <= j < Rank(RepeatedGreeting) ==> !Fires(Rules[j], input, history)
  {
    NoTokenContained(input, NameQueryTokens, "xx");
    NoTokenContained(input, FarewellTokens, "b\U{09AC}");
    NoTokenContained(input, PositiveTokens, "\U{09AD}\U{09AD}fgbvx");
    assert input !in VagueTokens;
  }

  /** A bare greeting in a history of more than three entries gets the
      "we are already talking" reply; with three entries or fewer the
      repeated-greeting rule never answers. */
  lemma RepeatedGreetingGate(input: string, history: seq<Message>)
    ensures SelectRule(input, history) == Some(RepeatedGreeting) ==>
      |history| > 3 && input in GreetingTokens
    ensures input in GreetingTokens && |history| > 3 ==>
      GetSituationalResponse(input, history) == Some(AlreadyTalkingReply)
  {
    if SelectRule(input, history) == Some(RepeatedGreeting) {
      assert Fires(RepeatedGreeting, input, history);
    }
    if input in GreetingTokens && |history| > 3 {
      GreetingSkipsEarlierRules(input, history);
      Answers(input, history, RepeatedGreeting);
    }
  }

  /** The identity-repeat rule needs more than five history entries and one
      of its phrases somewhere in the input. */
  lemma IdentityRepeatGate(input: string, history: seq<Message>)
    ensures SelectRule(input, history) == Some(IdentityRepeat) ==>
      |history| > 5 && ContainsAny(input, IdentityTokens)
  {
    if SelectRule(input, history) == Some(IdentityRepeat) {
      assert Fires(IdentityRepeat, input, history);
    }
  }

  /** The exact-repeat rule needs a second-to-last entry written by the user
      whose lower-cased text is the input. */
  lemma ExactRepeatGate(input: string, history: seq<Message>)
    ensures SelectRule(input, history) == Some(ExactRepeat) ==>
      |history| > 1 && history[|history| - 2].sender == User
      && ToLower(history[|history| - 2].text) == input
  {
    if SelectRule(input, history) == Some(ExactRepeat) {
      assert Fires(ExactRepeat, input, history);
    }
  }

  lemma NonCommittalHasNoGuardToken(input: string)
    requires input in NonCommittalTokens
    ensures !ContainsAny(input, NameQueryTokens) && !ContainsAny(input, FarewellTokens)
    ensures !ContainsAny(input, PositiveTokens) && !ContainsAny(input, FrustrationTokens)
    ensures !ContainsAny(input, ThanksTokens) && !ContainsAny(input, IdentityTokens)
  {
    NoTokenContained(input, NameQueryTokens, "xx");
    NoTokenContained(input, FarewellTokens, "b\U{09AC}");
    NoTokenContained(input, PositiveTokens, "\U{09AD}\U{09AD}fgbvx");
    NoTokenContained(input, FrustrationTokens, "\U{09A7}xxdx");
    NoTokenContained(input, ThanksTokens, "xx");
    NoTokenContained(input, IdentityTokens, "xxx");
  }

  lemma NonCommittalSkipsEarlierRules(input: string, history: seq<Message>)
    requires input in NonCommittalTokens
    ensures forall j :: 0 <= j < Rank(ExactRepeat) ==> !Fires(Rules[j], input, history)
  {
    NonCommittalHasNoGuardToken(input);
    assert input !in VagueTokens && input !in GreetingTokens && input !in ContinuationTokens;
  }

  lemma ExactRepeatFires(input: string, history: seq<Message>)
    ensures Fires(ExactRepeat, input, history) <==>
      |history| > 1 && history[|history| - 2].sender == User
      && ToLower(history[|history| - 2].text) == input
  {
  }

  lemma NonCommittalFirstFiring(input: string, history: seq<Message>)
    requires input in NonCommittalTokens
    requires !Fires(ExactRepeat, input, history)
    ensures Fires(NonCommittal, input, history)
    ensures forall j :: 0 <= j < Rank(NonCommittal) ==> !Fires(Rules[j], input, history)
  {
    NonCommittalSkipsEarlierRules(input, history);
    forall j | 0 <= j < Rank(NonCommittal)
      ensures !Fires(Rules[j], input, history)
    {
      if j == Rank(ExactRepeat) {
        assert Rules[j] == ExactRepeat;
      }
    }
  }

  lemma NonCommittalReply(input: string, history: seq<Message>)
    ensures Reply(NonCommittal, input, history) ==
      if exists k :: 0 <= k < |history| && history[k].sender == Ai
      then UnderstoodReply
      else HmmReply
  {
    assert FirstAiMessage(history).Some? <==>
      exists k :: 0 <= k < |history| && history[k].sender == Ai;
  }

  /** "ok", "hmm" and their Bengali counterparts always get a reply. Unless
      the user is repeating their previous message word for word, the reply
      depends only on whether the history holds any assistant message. */
  lemma NonCommittalAlwaysAnswers(input: string, history: seq<Message>)
    requires input in NonCommittalTokens
    ensures GetSituationalResponse(input, history) ==
      Some(if |history| > 1 && history[|history| - 2].sender == User
              && ToLower(history[|history| - 2].text) == input
           then RepeatReply
           else if exists k :: 0 <= k < |history| && history[k].sender == Ai
           then UnderstoodReply
           else HmmReply)
  {
    ExactRepeatFires(input, history);
    if Fires(ExactRepeat, input, history) {
      NonCommittalSkipsEarlierRules(input, history);
      Answers(input, history, ExactRepeat);
    } else {
      NonCommittalFirstFiring(input, history);
      Answers(input, history, NonCommittal);
      NonCommittalReply(input, history);
    }
  }

  /** A "bye" as the second message of the conversation meets the
      early-farewell rule. */
  lemma ByeAsSecondMessage()
    ensures GetSituationalResponse("bye", [Message("w", "Hello!", Ai), Message("u", "bye", User)])
      == Some(EarlyFarewellReply)
  {
    var h := [Message("w", "Hello!", Ai), Message("u", "bye", User)];
    NoTokenContained("bye", NameQueryTokens, "xx");
    assert StartsWith("bye", "bye");
    assert "bye" in FarewellTokens;
    EarlyFarewellGate("bye", h);
  }

  lemma RecallsFirstCapture()
    ensures RecallName([Message("u", "amar name is Rahim", User)]) == Some("is")
  {
    var h := [Message("u", "amar name is Rahim", User)];
    NamePattern.NameIsShadowsNamIs();
    assert DeclaresName(h[0]);
  }

  /** With "amar name is Rahim" in the history, a name question is answered
      with "is", the word the first alternative of the pattern captures. */
  lemma NameQuestionRecallsFirstCapture()
    ensures GetSituationalResponse("amar nam ki", [Message("u", "amar name is Rahim", User)])
      == Some(NameKnownReply("is"))
  {
    RecallsFirstCapture();
    assert StartsWith("amar nam ki", "amar nam ki");
    NameQueryPrecedence("amar nam ki", [Message("u", "amar name is Rahim", User)]);
  }
}
