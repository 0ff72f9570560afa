/** The situational rule engine: an ordered list of thirteen context rules
    over the current (already cleaned) input and the read-only conversation
    history. The first rule whose guard holds supplies the reply; when no
    guard holds there is no situational reply and the caller goes on to its
    general intents. */
module Situational {
  import opened Options
  import opened Text
  import opened Chat
  import opened NamePattern

  // ---------------------------------------------------------------------
  // Trigger tokens
  // ---------------------------------------------------------------------

  const NameQueryTokens: seq<string> := ["amar nam ki", "amar name ki"]
  const FarewellTokens: seq<string> := ["bye", "বিদায়"]
  const VagueTokens: seq<string> := ["how", "why", "কেমনে", "কেন", "kivabe"]
  /** What the assistant asks when it wants to know how the user is. */
  const HowAreYou := "কেমন আছেন"
  const PositiveTokens: seq<string> := ["ভালো", "ভাল", "fine", "good", "bhalo", "valo", "চলে যাচ্ছে"]
  const NegationTokens: seq<string> := ["না", "নি", "নেই", "not"]
  const GreetingTokens: seq<string> := ["hi", "hello", "হাই", "হ্যালো"]
  const FrustrationTokens: seq<string> := ["ধুর", "বাদ দেন", "আপনি পারেন না", "dhur", "bad den"]
  const ThanksTokens: seq<string> := ["thank you so much", "অনেক অনেক ধন্যবাদ"]
  const ContinuationTokens: seq<string> := ["and", "then", "আর", "তারপর", "এরপর"]
  const IdentityTokens: seq<string> := ["তুমি কে", "আপনার নাম কি", "tumi ke"]
  const NonCommittalTokens: seq<string> := ["ok", "hmm", "আচ্ছা", "হুম"]
  const RealityTokens: seq<string> := ["are you real", "tumi ki real", "তুমি কি সত্যি"]
  const BoredomTokens: seq<string> := ["i am bored", "আমি বোর হচ্ছি", "boring"]

  // ---------------------------------------------------------------------
  // Replies
  // ---------------------------------------------------------------------

  function NameKnownReply(name: string): string
  {
    "আপনার নাম তো " + name + ", আমি যতদূর মনে করতে পারছি! 😊"
  }

  const NameUnknownReply := "আমি দুঃখিত, আমি আপনার নাম এখনো জানি না। আপনার নাম কি?"
  const EarlyFarewellReply := "আমরা তো এখনো কথাই শুরু করিনি! এখনই বিদায়? 😯"

  function EchoReply(previous: string): string
  {
    "আপনি \"" + previous + "\"-এর জবাবে এটি জিজ্ঞেস করছেন? আরেকটু বুঝিয়ে বললে আমার উত্তর দিতে সুবিধা হতো। 😊"
  }

  const AskDetailReply := "আপনি কি জানতে চাইছেন, তা আরেকটু বিস্তারিত বলতে পারবেন?"
  const GladReply := "শুনে খুব ভালো লাগলো! 😊"
  const AlreadyTalkingReply := "আমরা তো কথা বলছিই! বলুন, আর কী জানতে চান? 😄"
  const FrustrationReply := "মনে হচ্ছে আপনি হতাশ। আমি কি আপনাকে সাহায্য করতে কোনো ভুল করেছি? 😕 দয়া করে আমাকে জানান।"
  const GratitudeReply := "আপনাকে সাহায্য করতে পেরে আমি আনন্দিত! আপনার আর কোনো প্রশ্ন আছে? 😊"
  const ContinuationReply := "আপনি কি আমার আগের উত্তরের ধারাবাহিকতায় কিছু জানতে চাইছেন?"
  const IdentityReply := "আমার পরিচয় তো আগেই দিয়েছি। আমি আপনার বন্ধুসুলভ ভার্চুয়াল অ্যাসিস্ট্যান্ট! 🤖"
  const RepeatReply := "আপনি একই প্রশ্ন আবার করেছেন। আমার আগের উত্তরে কি কোনো সমস্যা ছিল?"
  const UnderstoodReply := "আপনি কি আমার কথা বুঝতে পেরেছেন? আপনার আর কিছু জানার থাকলে বলুন।"
  const HmmReply := "হুম।"
  const RealityReply := "আমি একটি কম্পিউটার প্রোগ্রাম, তবে আপনার সাথে সত্যিকারের মতোই কথা বলতে চেষ্টা করছি! 💻"
  const BoredomReply := "বোর হবেন না! চলুন একটা মজার জোকস শুনি? অথবা কোনো বিষয় নিয়ে আলোচনাও করতে পারি। আপনি কী করতে চান?"

  // ---------------------------------------------------------------------
  // Context derived from the history
  // ---------------------------------------------------------------------

  /** The entry the engine treats as "the last message": the second-to-last
      entry of the history, when there are at least two. */
  function LastMessage(history: seq<Message>): (r: Option<Message>)
    ensures r.None? <==> |history| <= 1
    ensures r.Some? ==> r.value == history[|history| - 2]
  {
    if |history| > 1 then Some(history[|history| - 2]) else None
  }

  predicate IsAi(m: Message)
  {
    m.sender == Ai
  }

  /** The engine's "last AI message": the FIRST assistant message of the
      history, as `Array.prototype.find` returns it. */
  function FirstAiMessage(history: seq<Message>): (r: Option<Message>)
    ensures r.None? <==> forall k :: 0 <= k < |history| ==> history[k].sender != Ai
    ensures r.Some? ==> exists k :: (0 <= k < |history| && r.value == history[k]
      && r.value.sender == Ai && forall j :: 0 <= j < k ==> history[j].sender != Ai)
  {
    match FirstIndex(history, IsAi)
    case None => None
    case Some(k) => Some(history[k])
  }

  /** A user-authored message whose text matches the self-introduction
      pattern. */
  predicate DeclaresName(m: Message)
  {
    m.sender == User && DeclaredName(m.text).Some?
  }

  /** The name the user gave earlier: the capture from the earliest
      user-authored message that matches the self-introduction pattern. */
  function RecallName(history: seq<Message>): (r: Option<string>)
    ensures r.None? <==>
      forall k :: 0 <= k < |history| && history[k].sender == User ==> DeclaredName(history[k].text).None?
    ensures r.Some? ==> IsName(r.value)
    ensures r.Some? ==> exists k :: (0 <= k < |history| && history[k].sender == User
      && r == DeclaredName(history[k].text)
      && forall j :: 0 <= j < k && history[j].sender == User ==> DeclaredName(history[j].text).None?)
  {
    match FirstIndex(history, DeclaresName)
    case None => None
    case Some(k) => DeclaredName(history[k].text)
  }

  /** Assistant messages are never scanned for a name: two histories with
      the same senders and the same user-authored texts recall the same
      name, whatever the assistant said. */
  lemma RecallIgnoresAiMessages(h: seq<Message>, h': seq<Message>)
    requires |h| == |h'|
    requires forall k :: 0 <= k < |h| ==> h[k].sender == h'[k].sender
    requires forall k :: 0 <= k < |h| && h[k].sender == User ==> h[k].text == h'[k].text
    ensures RecallName(h) == RecallName(h')
  {
    forall k | 0 <= k < |h|
      ensures DeclaresName(h[k]) == DeclaresName(h'[k])
    {
    }
    FirstIndexAgrees(h, DeclaresName, h', DeclaresName);
  }

  /** The user-authored messages of a history, in their original order. */
  function UserOnly(history: seq<Message>): (r: seq<Message>)
    ensures |r| <= |history|
    ensures forall k :: 0 <= k < |r| ==> r[k].sender == User && r[k] in history
    ensures forall k :: 0 <= k < |history| && history[k].sender == User ==> history[k] in r
  {
    if |history| == 0 then []
    else (if history[0].sender == User then [history[0]] else []) + UserOnly(history[1..])
  }

  /** Filtering distributes over concatenation, so the user messages keep
      their order. */
  lemma {:induction false} UserOnlyAppend(a: seq<Message>, b: seq<Message>)
    ensures UserOnly(a + b) == UserOnly(a) + UserOnly(b)
  {
    if |a| > 0 {
      assert (a + b)[0] == a[0];
      assert (a + b)[1..] == a[1..] + b;
      UserOnlyAppend(a[1..], b);
    } else {
      assert a + b == b;
    }
  }

  /** `RecallName` unfolded by one message: the first message's capture if
      it is a user message declaring a name, else the recall over the rest. */
  lemma RecallUnfold(history: seq<Message>)
    requires |history| > 0
    ensures RecallName(history) ==
      if DeclaresName(history[0]) then DeclaredName(history[0].text) else RecallName(history[1..])
  {
    if !DeclaresName(history[0]) {
      match FirstIndex(history[1..], DeclaresName)
      case None =>
      case Some(k) => assert history[1..][k] == history[k + 1];
    }
  }

  /** The name loop reads only user messages: recalling over the whole
      history gives the same name as recalling over its user messages alone,
      so adding, removing or editing assistant messages changes nothing. */
  lemma {:induction false} RecallOnlyReadsUserMessages(history: seq<Message>)
    ensures RecallName(history) == RecallName(UserOnly(history))
  {
    if |history| > 0 {
      RecallUnfold(history);
      RecallOnlyReadsUserMessages(history[1..]);
      var rest := UserOnly(history[1..]);
      if history[0].sender == User {
        var u := UserOnly(history);
        assert u == [history[0]] + rest;
        assert u[0] == history[0] && u[1..] == rest;
        RecallUnfold(u);
      } else {
        assert UserOnly(history) == rest;
      }
    }
  }

  /** Inserting an assistant message anywhere in a history leaves the
      recalled name unchanged. */
  lemma AiMessageDoesNotChangeRecall(a: seq<Message>, m: Message, b: seq<Message>)
    requires m.sender == Ai
    ensures RecallName(a + [m] + b) == RecallName(a + b)
  {
    assert UserOnly([m]) == [] by {
      assert [m][1..] == [];
    }
    var withM := a + [m] + b;
    calc {
      UserOnly(withM);
      { UserOnlyAppend(a + [m], b); }
      UserOnly(a + [m]) + UserOnly(b);
      { UserOnlyAppend(a, [m]); }
      UserOnly(a) + UserOnly(b);
      { UserOnlyAppend(a, b); }
      UserOnly(a + b);
    }
    RecallOnlyReadsUserMessages(withM);
    RecallOnlyReadsUserMessages(a + b);
  }

  // ---------------------------------------------------------------------
  // The rules
  // ---------------------------------------------------------------------

  datatype Rule =
    | NameQuery         // the user asks for their own name
    | EarlyFarewell     // "bye" at the very start of the conversation
    | VagueFollowUp     // a bare "how" / "why"
    | AffectiveAck      // "fine" after the assistant asked how the user is
    | RepeatedGreeting  // "hi" again in the middle of a conversation
    | Frustration
    | Gratitude
    | Continuation      // "and" / "then"
    | IdentityRepeat    // "who are you" again in a longer conversation
    | ExactRepeat       // the user repeats their previous message
    | NonCommittal      // "ok" / "hmm"
    | RealityCheck      // "are you real"
    | Boredom

  /** The order in which the rules are consulted. */
  const Rules: seq<Rule> := [
    NameQuery, EarlyFarewell, VagueFollowUp, AffectiveAck, RepeatedGreeting,
    Frustration, Gratitude, Continuation, IdentityRepeat, ExactRepeat,
    NonCommittal, RealityCheck, Boredom
  ]

  /** Position of a rule in `Rules`. */
  function Rank(rule: Rule): (k: nat)
    ensures k < |Rules| && Rules[k] == rule
  {
    match rule
    case NameQuery => 0
    case EarlyFarewell => 1
    case VagueFollowUp => 2
    case AffectiveAck => 3
    case RepeatedGreeting => 4
    case Frustration => 5
    case Gratitude => 6
    case Continuation => 7
    case IdentityRepeat => 8
    case ExactRepeat => 9
    case NonCommittal => 10
    case RealityCheck => 11
    case Boredom => 12
  }

  /** The guard of each rule. */
  predicate Fires(rule: Rule, input: string, history: seq<Message>)
  {
    var last := LastMessage(history);
    var firstAi := FirstAiMessage(history);
    match rule
    case NameQuery => ContainsAny(input, NameQueryTokens)
    case EarlyFarewell => |history| <= 2 && ContainsAny(input, FarewellTokens)
    case VagueFollowUp => input in VagueTokens
    case AffectiveAck =>
      && firstAi.Some? && Contains(firstAi.value.text, HowAreYou)
      && ContainsAny(input, PositiveTokens)
      && !ContainsAny(input, NegationTokens)
    case RepeatedGreeting => |history| > 3 && input in GreetingTokens
    case Frustration => ContainsAny(input, FrustrationTokens)
    case Gratitude => last.Some? && last.value.sender == Ai && ContainsAny(input, ThanksTokens)
    case Continuation => input in ContinuationTokens
    case IdentityRepeat => |history| > 5 && ContainsAny(input, IdentityTokens)
    case ExactRepeat => last.Some? && last.value.sender == User && ToLower(last.value.text) == input
    case NonCommittal => input in NonCommittalTokens
    case RealityCheck => ContainsAny(input, RealityTokens)
    case Boredom => ContainsAny(input, BoredomTokens)
  }

  /** The reply of each rule. */
  function Reply(rule: Rule, input: string, history: seq<Message>): string
  {
    match rule
    case NameQuery =>
      (match RecallName(history)
       case Some(name) => NameKnownReply(name)
       case None => NameUnknownReply)
    case EarlyFarewell => EarlyFarewellReply
    case VagueFollowUp =>
      (match LastMessage(history)
       case Some(m) => if m.text != "" then EchoReply(m.text) else AskDetailReply
       case None => AskDetailReply)
    case AffectiveAck => GladReply
    case RepeatedGreeting => AlreadyTalkingReply
    case Frustration => FrustrationReply
    case Gratitude => GratitudeReply
    case Continuation => ContinuationReply
    case IdentityRepeat => IdentityReply
    case ExactRepeat => RepeatReply
    case NonCommittal => if FirstAiMessage(history).Some? then UnderstoodReply else HmmReply
    case RealityCheck => RealityReply
    case Boredom => BoredomReply
  }

  /** The guards of one call as a test on rules. The ensures only repeats
      the lambda, so that proofs can apply it without unfolding; it is a
      proof aid, not a specification. */
  function FiresOn(input: string, history: seq<Message>): (p: Rule -> bool)
    ensures forall rule :: p(rule) == Fires(rule, input, history)
  {
    rule => Fires(rule, input, history)
  }

  /** `Rules` lists every rule exactly once. */
  lemma RulesAreRanked(k: nat)
    requires k < |Rules|
    ensures Rank(Rules[k]) == k
  {
  }

  /** When the scan over `Rules` finds nothing, no rule at all fires. */
  lemma NoRuleFires(input: string, history: seq<Message>)
    ensures FirstIndex(Rules, FiresOn(input, history)).None? ==>
      forall rule :: !Fires(rule, input, history)
  {
    if FirstIndex(Rules, FiresOn(input, history)).None? {
      forall rule
        ensures !Fires(rule, input, history)
      {
        assert Rules[Rank(rule)] == rule;
      }
    }
  }

  /** The rule at which the scan over `Rules` stops fires, and no rule
      before it does. */
  lemma FirstFiringRule(input: string, history: seq<Message>, k: nat)
    requires FirstIndex(Rules, FiresOn(input, history)) == Some(k)
    ensures k < |Rules| && Fires(Rules[k], input, history)
    ensures forall j :: 0 <= j < Rank(Rules[k]) ==> !Fires(Rules[j], input, history)
  {
    RulesAreRanked(k);
  }

  /** The rule that answers: the first rule of `Rules` whose guard holds. */
  function SelectRule(input: string, history: seq<Message>): (r: Option<Rule>)
    ensures r.None? <==> forall rule :: !Fires(rule, input, history)
    ensures r.Some? ==> Fires(r.value, input, history)
    ensures r.Some? ==> forall j :: 0 <= j < Rank(r.value) ==> !Fires(Rules[j], input, history)
  {
    match FirstIndex(Rules, FiresOn(input, history))
    case None =>
      NoRuleFires(input, history);
      None
    case Some(k) =>
      FirstFiringRule(input, history, k);
      Some(Rules[k])
  }

  /** `getSituationalResponse`: the reply of the first rule that fires, or
      no reply when none does. */
  function GetSituationalResponse(input: string, history: seq<Message>): (r: Option<string>)
    ensures r.None? <==> forall rule :: !Fires(rule, input, history)
  {
    match SelectRule(input, history)
    case None => None
    case Some(rule) => Some(Reply(rule, input, history))
  }
}
