/**
 The support chat of `components/support-ai.jsx`: the keyword classifier
 `getAIResponse`, an ordered first-match-wins decision list over the
 lower-cased message, and the chat log that `handleSendMessage` grows.
 Reply texts are abstracted to which canned answer is chosen.
 */
module SupportAI {
  import opened Optional
  import opened Text

  /** The canned answers, in the order of the rules that produce them, and
      the greeting the chat opens with. */
  datatype Reply =
    | RegisterFull | RegisterCancel | RegisterApproval | RegisterHowTo
    | PasswordReset | LoginHelp
    | Certificates | Navigation | AdminFeatures | Schedule | NotificationInfo
    | Troubleshooting | SearchHelp | FeedbackInfo | WaitlistInfo | ReportsInfo
    | About | HelpMenu | YoureWelcome
    | Fallback
    | Greeting
  {
    predicate IsRegistration() {
      this == RegisterFull || this == RegisterCancel || this == RegisterApproval || this == RegisterHowTo
    }
  }

  /** `keys.some(k => message.includes(k))`. */
  predicate MatchesAny(message: string, keys: seq<string>) {
    exists k :: 0 <= k < |keys| && Contains(message, keys[k])
  }

  /** Keywords that are prefixes of other keywords, written once so that the
      overlap is visible. */
  const Register := "register"
  const Cert := "cert"
  const Find := "find"
  const Thank := "thank"

  /** The keywords that select each answer within its group. */
  function Keywords(r: Reply): seq<string> {
    match r
    case RegisterFull => ["full", "capacity"]
    case RegisterCancel => ["cancel", "unregister"]
    case RegisterApproval => ["approve", "pending"]
    case PasswordReset => ["forgot", "reset"]
    case Certificates => [Cert + "ificate", Cert]
    case Navigation => [Find, "where", "navigate"]
    case AdminFeatures => ["admin", "approve", "manage event"]
    case Schedule => ["calendar", "schedule", "conflict"]
    case NotificationInfo => ["notification", "alert", "reminder"]
    case Troubleshooting => ["error", "not working", "bug", "issue"]
    case SearchHelp => ["search", "filter", Find + " event"]
    case FeedbackInfo => ["feedback", "review", "rate"]
    case WaitlistInfo => ["waitlist", "waiting list"]
    case ReportsInfo => ["report", "analytics", "export"]
    case About => ["what is", "what can"]
    case HelpMenu => ["help", "support", "contact"]
    case YoureWelcome => [Thank, Thank + "s"]
    case _ => []
  }

  predicate Triggers(message: string, r: Reply) {
    MatchesAny(message, Keywords(r))
  }

  /** The number of single-level rules that follow the registration and
      login groups. */
  const TopicCount: nat := 13

  /** The single-level rules, in source order. */
  function Topic(i: nat): (r: Reply)
    requires i < TopicCount
  {
    if i == 0 then Certificates
    else if i == 1 then Navigation
    else if i == 2 then AdminFeatures
    else if i == 3 then Schedule
    else if i == 4 then NotificationInfo
    else if i == 5 then Troubleshooting
    else if i == 6 then SearchHelp
    else if i == 7 then FeedbackInfo
    else if i == 8 then WaitlistInfo
    else if i == 9 then ReportsInfo
    else if i == 10 then About
    else if i == 11 then HelpMenu
    else YoureWelcome
  }

  /** The position of a single-level answer in the list; every other answer
      is ranked past its end. */
  function Rank(r: Reply): nat {
    match r
    case Certificates => 0
    case Navigation => 1
    case AdminFeatures => 2
    case Schedule => 3
    case NotificationInfo => 4
    case Troubleshooting => 5
    case SearchHelp => 6
    case FeedbackInfo => 7
    case WaitlistInfo => 8
    case ReportsInfo => 9
    case About => 10
    case HelpMenu => 11
    case YoureWelcome => 12
    case _ => TopicCount
  }

  predicate IsTopic(r: Reply) {
    Rank(r) < TopicCount
  }

  /** Rank and position are inverse: each single-level answer appears once
      in the list, at its rank. */
  lemma RankOfTopic(i: nat)
    requires i < TopicCount
    ensures Rank(Topic(i)) == i
  {
  }

  lemma TopicOfRank(r: Reply)
    requires IsTopic(r)
    ensures Topic(Rank(r)) == r
  {
  }

  /** The position of the first single-level rule from `k` on that fires. */
  function FirstTopicFrom(hit: Reply -> bool, k: nat): (r: Option<nat>)
    requires k <= TopicCount
    ensures r.Some? ==> k <= r.value < TopicCount && hit(Topic(r.value))
    ensures r.Some? ==> forall j :: k <= j < r.value ==> !hit(Topic(j))
    ensures r.None? <==> forall j :: k <= j < TopicCount ==> !hit(Topic(j))
    decreases TopicCount - k
  {
    if k == TopicCount then None
    else if hit(Topic(k)) then Some(k)
    else FirstTopicFrom(hit, k + 1)
  }

  const RegisterKeys: seq<string> := [Register, Register + "ation"]
  const LoginKeys: seq<string> := ["login", "sign in", "password"]

  /** The registration group: full, then cancel, then approval, otherwise
      how to register. */
  function RegistrationAnswer(hit: Reply -> bool): (r: Reply)
    ensures r.IsRegistration()
    ensures r == RegisterFull <==> hit(RegisterFull)
    ensures r == RegisterCancel <==> !hit(RegisterFull) && hit(RegisterCancel)
    ensures r == RegisterApproval <==> !hit(RegisterFull) && !hit(RegisterCancel) && hit(RegisterApproval)
  {
    if hit(RegisterFull) then RegisterFull
    else if hit(RegisterCancel) then RegisterCancel
    else if hit(RegisterApproval) then RegisterApproval
    else RegisterHowTo
  }

  /** The login group: reset, otherwise general login help. */
  function LoginAnswer(hit: Reply -> bool): (r: Reply)
    ensures r == PasswordReset || r == LoginHelp
    ensures r == PasswordReset <==> hit(PasswordReset)
  {
    if hit(PasswordReset) then PasswordReset else LoginHelp
  }

  /** The single-level rules: the first whose keywords occur, otherwise the
      fallback. */
  function TopicAnswer(hit: Reply -> bool): (r: Reply)
    ensures r == Fallback || IsTopic(r)
    ensures IsTopic(r) ==> hit(r) && forall j :: 0 <= j < Rank(r) ==> !hit(Topic(j))
    ensures r == Fallback <==> forall j :: 0 <= j < TopicCount ==> !hit(Topic(j))
  {
    match FirstTopicFrom(hit, 0)
    case Some(i) =>
      RankOfTopic(i);
      Topic(i)
    case None => Fallback
  }

  /** The decision list, given whether the message mentions registration,
      whether it mentions logging in, and which answers' keywords occur in
      it. Earlier rules win. */
  function Decide(register: bool, login: bool, hit: Reply -> bool): (r: Reply)
    ensures r != Greeting
    ensures r.IsRegistration() <==> register
    ensures register ==>
      && (r == RegisterFull <==> hit(RegisterFull))
      && (r == RegisterCancel <==> !hit(RegisterFull) && hit(RegisterCancel))
      && (r == RegisterApproval <==> !hit(RegisterFull) && !hit(RegisterCancel) && hit(RegisterApproval))
    ensures r == PasswordReset || r == LoginHelp <==> !register && login
    ensures !register && login ==> (r == PasswordReset <==> hit(PasswordReset))
    ensures IsTopic(r) ==> !register && !login && hit(r)
    ensures IsTopic(r) ==> forall j :: 0 <= j < Rank(r) ==> !hit(Topic(j))
    ensures r == Fallback <==> !register && !login && forall j :: 0 <= j < TopicCount ==> !hit(Topic(j))
  {
    if register then RegistrationAnswer(hit)
    else if login then LoginAnswer(hit)
    else TopicAnswer(hit)
  }

  /** The classifier on an already lower-cased message. */
  function Classify(message: string): Reply {
    Decide(MatchesAny(message, RegisterKeys), MatchesAny(message, LoginKeys), r => Triggers(message, r))
  }

  /** `getAIResponse`. */
  function GetAIResponse(userMessage: string): (r: Reply)
    ensures r != Greeting
  {
    Classify(ToLower(userMessage))
  }

  /** Matching ignores case: a message, its lower-cased and its upper-cased
      forms get the same answer. */
  lemma CaseInsensitive(m: string)
    ensures GetAIResponse(ToLower(m)) == GetAIResponse(m)
    ensures GetAIResponse(ToUpper(m)) == GetAIResponse(m)
  {
    ToLowerIdempotent(m);
    assert ToLower(ToUpper(m)) == ToLower(m);
  }

  /** "registration" contains "register", so the group is entered exactly
      when "register" occurs; and every such message gets a registration
      answer, whatever else it mentions. */
  lemma RegistrationGroup(m: string)
    ensures GetAIResponse(m).IsRegistration() <==> Contains(ToLower(m), Register)
  {
    var l := ToLower(m);
    if Contains(l, Register + "ation") {
      ContainsPrefix(l, Register, "ation");
    }
    assert MatchesAny(l, RegisterKeys) <==> Contains(l, Register) || Contains(l, Register + "ation") by {
      assert RegisterKeys[0] == Register && RegisterKeys[1] == Register + "ation";
    }
  }

  /** A message about the waitlist that also says "register" gets a
      registration answer, never the waitlist one. */
  lemma WaitlistNeedsNoRegister(m: string)
    ensures GetAIResponse(m) == WaitlistInfo ==> !Contains(ToLower(m), Register)
    ensures GetAIResponse(m) == WaitlistInfo ==> Triggers(ToLower(m), WaitlistInfo)
  {
    RegistrationGroup(m);
  }

  /** "find event" never decides: any message containing it already contains
      "find", which the earlier navigation rule claims. The search answer is
      given only for "search" or "filter". */
  lemma FindEventUnreachable(m: string)
    ensures GetAIResponse(m) == SearchHelp ==>
      Contains(ToLower(m), "search") || Contains(ToLower(m), "filter")
  {
    var l := ToLower(m);
    var hit := r => Triggers(l, r);
    if Decide(MatchesAny(l, RegisterKeys), MatchesAny(l, LoginKeys), hit) == SearchHelp {
      assert Rank(SearchHelp) == 6 && Topic(1) == Navigation;
      assert hit(SearchHelp) && !hit(Navigation);
      SearchNeedsOwnKeyword(l);
    }
  }

  lemma SearchNeedsOwnKeyword(l: string)
    requires Triggers(l, SearchHelp) && !Triggers(l, Navigation)
    ensures Contains(l, "search") || Contains(l, "filter")
  {
    FindEventMeansFind(l);
    assert Keywords(SearchHelp) == ["search", "filter", Find + " event"];
  }

  /** Any message with "find event" in it triggers the navigation rule. */
  lemma FindEventMeansFind(l: string)
    ensures Contains(l, Find + " event") ==> Triggers(l, Navigation)
  {
    if Contains(l, Find + " event") {
      ContainsPrefix(l, Find, " event");
      assert Keywords(Navigation)[0] == Find;
    }
  }

  // ---------------------------------------------------------------------------
  // The chat log

  datatype Message = FromUser(id: nat, text: string) | FromBot(id: nat, reply: Reply)

  datatype Chat = Chat(messages: seq<Message>, input: string, typing: bool)

  /** The chat as mounted: the greeting, numbered 1. */
  const Opening: Chat := Chat([FromBot(1, Greeting)], "", false)

  /** Message ids are positions counted from one, so they are distinct. */
  predicate Numbered(ms: seq<Message>) {
    forall i :: 0 <= i < |ms| ==> ms[i].id == i + 1
  }

  /** `handleSendMessage` as written: the bot message the timer will append
      is built when the user sends, from the log length at that moment. */
  function SendAsWritten(c: Chat): (r: (Chat, Option<Message>))
    ensures IsBlank(c.input) ==> r == (c, None)
    ensures !IsBlank(c.input) ==>
      r.0.messages == c.messages + [FromUser(|c.messages| + 1, c.input)] &&
      r.0.input == [] && r.0.typing &&
      r.1 == Some(FromBot(|c.messages| + 2, GetAIResponse(c.input)))
  {
    if IsBlank(c.input) then (c, None)
    else
      (Chat(c.messages + [FromUser(|c.messages| + 1, c.input)], [], true),
       Some(FromBot(|c.messages| + 2, GetAIResponse(c.input))))
  }

  /** The timer firing: the prepared message is appended. */
  function DeliverAsWritten(c: Chat, m: Message): (r: Chat)
    ensures r.messages == c.messages + [m] && !r.typing && r.input == c.input
  {
    Chat(c.messages + [m], c.input, false)
  }

  /** Sending twice before the first answer arrives (the input is not
      disabled while the assistant is typing) numbers the second user
      message and the first answer alike, whatever the chat held before. */
  lemma ResendBeforeAnswerCollides(c: Chat, a: string, b: string)
    requires !IsBlank(a) && !IsBlank(b)
    ensures var (c1, p1) := SendAsWritten(c.(input := a));
            var (c2, _) := SendAsWritten(c1.(input := b));
            p1.Some? &&
            var c3 := DeliverAsWritten(c2, p1.value);
            |c3.messages| == |c.messages| + 3 &&
            c3.messages[|c.messages| + 1].id == c3.messages[|c.messages| + 2].id == |c.messages| + 2
  {
  }

  /** The same on the opening chat: two messages numbered 3. */
  lemma QuickResendDuplicatesIds()
    ensures var (c1, p1) := SendAsWritten(Chat(Opening.messages, "a", false));
            var (c2, _) := SendAsWritten(Chat(c1.messages, "b", true));
            p1.Some? &&
            var c3 := DeliverAsWritten(c2, p1.value);
            |c3.messages| == 4 && c3.messages[2].id == c3.messages[3].id == 3
  {
    assert !IsBlank("a") by { assert !IsWhitespace("a"[0]); }
    assert !IsBlank("b") by { assert !IsWhitespace("b"[0]); }
    ResendBeforeAnswerCollides(Opening, "a", "b");
  }

  /** Send, numbering the answer when it arrives rather than when it is
      requested. */
  function Send(c: Chat): (r: (Chat, Option<Reply>))
    ensures IsBlank(c.input) ==> r == (c, None)
    ensures !IsBlank(c.input) ==>
      r.0.messages == c.messages + [FromUser(|c.messages| + 1, c.input)] &&
      r.0.input == [] && r.0.typing && r.1 == Some(GetAIResponse(c.input))
  {
    if IsBlank(c.input) then (c, None)
    else (Chat(c.messages + [FromUser(|c.messages| + 1, c.input)], [], true), Some(GetAIResponse(c.input)))
  }

  function Deliver(c: Chat, reply: Reply): (r: Chat)
    ensures r.messages == c.messages + [FromBot(|c.messages| + 1, reply)]
    ensures !r.typing && r.input == c.input
  {
    Chat(c.messages + [FromBot(|c.messages| + 1, reply)], c.input, false)
  }

  datatype Event = Type(text: string) | Submit | Answer(reply: Reply)

  /** One event of the chat: typing, sending, or an answer arriving. */
  function Step(c: Chat, e: Event): Chat {
    match e
    case Type(t) => Chat(c.messages, t, c.typing)
    case Submit => Send(c).0
    case Answer(reply) => Deliver(c, reply)
  }

  /** With answers numbered on arrival, ids stay distinct however sends and
      answers interleave. */
  lemma {:induction false} StepsKeepNumbered(c: Chat, es: seq<Event>)
    requires Numbered(c.messages)
    ensures Numbered(Run(c, es).messages)
    decreases |es|
  {
    if es != [] {
      var d := Step(c, es[0]);
      assert Numbered(d.messages);
      StepsKeepNumbered(d, es[1..]);
    }
  }

  function Run(c: Chat, es: seq<Event>): Chat
    decreases |es|
  {
    if es == [] then c else Run(Step(c, es[0]), es[1..])
  }

  /** The same quick resend, now with distinct ids. */
  lemma QuickResendNumbered()
    ensures Numbered(Run(Opening, [Type("a"), Submit, Type("b"), Submit, Answer(Fallback), Answer(Fallback)]).messages)
  {
    StepsKeepNumbered(Opening, [Type("a"), Submit, Type("b"), Submit, Answer(Fallback), Answer(Fallback)]);
  }

  /** A send appends exactly one message when the input has text, and none
      otherwise; it always leaves the input empty or untouched. */
  lemma SendAppendsOne(c: Chat)
    ensures |Send(c).0.messages| == |c.messages| + (if IsBlank(c.input) then 0 else 1)
    ensures Send(c).1.Some? <==> !IsBlank(c.input)
  {
  }

  // ---------------------------------------------------------------------------
  // Quick questions

  /** `handleQuickAction` as written: the input is set to the query, but the
      delayed send is the one from the render the click happened in, which
      still sees the old input. */
  function QuickActionAsWritten(c: Chat, query: string): (r: (Chat, Option<Message>))
    ensures IsBlank(c.input) ==> r.0 == Chat(c.messages, query, c.typing) && r.1.None?
    ensures !IsBlank(c.input) ==> r.0.messages == c.messages + [FromUser(|c.messages| + 1, c.input)] && r.0.input == []
  {
    var (sent, pending) := SendAsWritten(c);
    if pending.None? then (Chat(c.messages, query, c.typing), None) else (sent, pending)
  }

  /** On the opening screen, where the quick questions show, clicking one
      sends nothing: it only fills the input. */
  lemma QuickActionSendsNothing(query: string)
    ensures QuickActionAsWritten(Opening, query).0.messages == Opening.messages
    ensures QuickActionAsWritten(Opening, query).0.input == query
  {
  }

  /** A quick question sends its query. */
  function QuickAction(c: Chat, query: string): (r: (Chat, Option<Reply>))
    ensures !IsBlank(query) ==>
      r.0.messages == c.messages + [FromUser(|c.messages| + 1, query)] && r.1 == Some(GetAIResponse(query))
    ensures IsBlank(query) ==> r == (Chat(c.messages, query, c.typing), None)
  {
    Send(Chat(c.messages, query, c.typing))
  }

  /** Each of the four quick questions has text, so the corrected action
      sends every one of them. */
  lemma QuickQuestionsHaveText()
    ensures !IsBlank("How do I register for an event?")
    ensures !IsBlank("I have login issues")
    ensures !IsBlank("How to download certificate?")
    ensures !IsBlank("I have a technical issue")
  {
    assert !IsWhitespace("How do I register for an event?"[0]);
    assert !IsWhitespace("I have login issues"[0]);
    assert !IsWhitespace("How to download certificate?"[0]);
    assert !IsWhitespace("I have a technical issue"[0]);
  }
}
