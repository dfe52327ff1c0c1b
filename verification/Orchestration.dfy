/**
 The agent workflow as a state machine: a router that classifies, specialists that act, a human
 handoff and a final formatter. What the language model and the specialists answer is arbitrary;
 the list channels are merged by appending whatever list a node hands back.
 */
module Orchestration {
  import opened Options

  datatype Role = User | Assistant
  datatype Message = Message(role: Role, content: string)
  datatype Response = Response(kind: string, message: string)

  /** The "response" entry of an action: absent, explicitly null, or a response. */
  datatype ResponseEntry = Absent | Null | Given(response: Response)

  datatype Action = Action(
    agent: string, name: string, response: ResponseEntry, requiresFollowup: bool,
    summary: string, suggestedAgent: string)

  datatype Handoff = Handoff(agent: string, summary: string, suggestedAgent: string)

  datatype State = State(
    messages: seq<Message>, actions: seq<Action>, turnCount: int, needsHuman: bool,
    intent: string, confidence: real, lastHandoff: Option<Handoff>, finalResponse: Option<Response>)

  const MAX_AGENT_TURNS := 6

  // ---- channels ----

  function MergeLists<T>(left: seq<T>, right: seq<T>): seq<T> { left + right }

  /** The channels after a node returned a whole state: lists appended, the rest overwritten. */
  function Merge(before: State, returned: State): State {
    returned.(messages := MergeLists(before.messages, returned.messages),
              actions := MergeLists(before.actions, returned.actions))
  }

  // ---- the router node ----

  /** The structured answer of the classifying model; confidence is None when it is no number. */
  datatype RouterReply =
    | ParseError
    | Classified(intent: string, confidence: Option<real>, question: string)
    | RouterRaises

  const ROUTER_INTENTS: set<string> := {
    "contractor_search", "pricing_question", "order_status", "complaint", "contractor_verification",
    "analytics_query", "general_info", "technical_support", "architecture_analysis", "payment_query",
    "viral_invite_query", "building_social_proof", "influencer_campaign"}

  function LastUserMessage(messages: seq<Message>): string {
    if messages == [] then ""
    else if messages[|messages| - 1].role == User then messages[|messages| - 1].content
    else LastUserMessage(messages[..|messages| - 1])
  }

  function Clamp(x: real): real { if x < 0.0 then 0.0 else if x > 1.0 then 1.0 else x }

  const NOT_UNDERSTOOD :=
    Action("router", "clarification_needed", Given(Response("text", "not understood")), false, "", "")

  function Clarification(question: string): Action {
    Action("router", "clarification_needed", Given(Response("clarification", question)), false, "", "")
  }

  /** The classifying agent adds at most one action, asking the user to clarify. */
  function RouterAction(s: State, reply: RouterReply): seq<Action> {
    if LastUserMessage(s.messages) == "" then []
    else match reply
      case ParseError => [NOT_UNDERSTOOD]
      case Classified(_, confidence, question) =>
        if ReadConfidence(confidence) < 0.7 && question != "" then [Clarification(question)] else []
      case RouterRaises => []
  }

  function ReadConfidence(c: Option<real>): real { if c.None? then 0.5 else Clamp(c.value) }

  /** RouterAgent: classify the last user message; without a new action the list stays as it is. */
  function Classify(s: State, reply: RouterReply): State {
    var t := if RouterAction(s, reply) == [] then s else s.(actions := RouterAction(s, reply));
    if LastUserMessage(s.messages) == "" then t.(intent := "general_info", confidence := 0.0)
    else match reply
      case ParseError => t.(intent := "general_info", confidence := 0.5)
      case Classified(intent, confidence, _) =>
        t.(intent := if intent in ROUTER_INTENTS then intent else "general_info",
           confidence := ReadConfidence(confidence))
      case RouterRaises => t
  }

  function Normalize(a: Action): Handoff { Handoff(a.agent, a.summary, a.suggestedAgent) }

  /** _route_message: count the turn, remember the last action for the router, classify. */
  function Route(s: State, reply: RouterReply): State {
    var t := s.(turnCount := s.turnCount + 1,
                lastHandoff := if s.actions == [] then None else Some(Normalize(s.actions[|s.actions| - 1])));
    Classify(t, reply)
  }

  // ---- edges ----

  datatype Settings = Settings(threshold: real, hasPayment: bool)

  datatype Agent =
    | RouterAgent | Support | Matching | Pricing | Vetting | Outreach | Analytics | Architecture | Influencer
    | Notification | Payment

  function AgentName(a: Agent): string {
    match a
    case RouterAgent => "router"
    case Support => "support"
    case Matching => "matching"
    case Pricing => "pricing"
    case Vetting => "vetting"
    case Outreach => "outreach"
    case Analytics => "analytics"
    case Architecture => "architecture"
    case Influencer => "influencer"
    case Notification => "notification"
    case Payment => "payment"
  }

  const AGENTS: seq<Agent> := [RouterAgent, Support, Matching, Pricing, Vetting, Outreach, Analytics, Architecture,
                               Influencer, Notification, Payment]

  /** The payment agent is registered only where its module can be imported. */
  predicate Registered(cfg: Settings, a: Agent) { a != Payment || cfg.hasPayment }

  /** The registered agent of a name; the router itself is one. */
  function AgentNamed(cfg: Settings, name: string): Option<Agent> {
    NamedFrom(cfg, name, 0)
  }

  function NamedFrom(cfg: Settings, name: string, i: nat): Option<Agent>
    decreases |AGENTS| - i
  {
    if i >= |AGENTS| then None
    else if AgentName(AGENTS[i]) == name && Registered(cfg, AGENTS[i]) then Some(AGENTS[i])
    else NamedFrom(cfg, name, i + 1)
  }

  function AgentForIntent(intent: string): Agent {
    if intent == "contractor_search" then Matching
    else if intent == "pricing_question" || intent == "building_social_proof" then Pricing
    else if intent == "contractor_verification" then Vetting
    else if intent == "analytics_query" then Analytics
    else if intent == "architecture_analysis" then Architecture
    else if intent == "payment_query" then Payment
    else if intent == "notification_query" then Notification
    else if intent == "viral_invite_query" then Outreach
    else if intent == "influencer_campaign" then Influencer
    else Support
  }

  predicate Space(c: char) { c == ' ' || c == '\t' || c == '\n' || c == '\r' }

  function Strip(s: string): string
    decreases |s|
  {
    if s == "" then s
    else if Space(s[0]) then Strip(s[1..])
    else if Space(s[|s| - 1]) then Strip(s[..|s| - 1])
    else s
  }

  /** A short follow-up; the words _determine_next_agent also accepts, such as yes and no, are shorter still. */
  predicate ShortMessage(s: State) { |Strip(LastUserMessage(s.messages))| <= 30 }

  function Suggested(s: State): string {
    if s.lastHandoff.None? then "" else Strip(s.lastHandoff.value.suggestedAgent)
  }

  predicate FollowsSuggestion(cfg: Settings, s: State) {
    AgentNamed(cfg, Suggested(s)).Some? && (ShortMessage(s) || 0.5 <= s.confidence <= 0.75)
  }

  datatype NextStep = ToHuman | ToEnd | ToAgent(agent: Agent)

  function DetermineNextAgent(cfg: Settings, s: State): NextStep {
    if s.needsHuman then ToHuman
    else if s.confidence < cfg.threshold then
      if s.actions != [] && s.actions[|s.actions| - 1].name == "clarification_needed" then ToEnd else ToAgent(Support)
    else if FollowsSuggestion(cfg, s) then ToAgent(AgentNamed(cfg, Suggested(s)).value)
    else if Registered(cfg, AgentForIntent(s.intent)) then ToAgent(AgentForIntent(s.intent))
    else ToAgent(Support)
  }

  datatype Node = Router | Specialist(agent: Agent) | HumanHandoff | FinalResponse | End | Crashed

  /** The router's edge map has no entry for the router itself; a missing entry makes the graph raise. */
  function RouterEdge(next: NextStep): Node {
    match next
    case ToHuman => HumanHandoff
    case ToEnd => FinalResponse
    case ToAgent(a) => if a == RouterAgent then Crashed else Specialist(a)
  }

  function ShouldContinue(s: State): Node {
    if s.turnCount >= MAX_AGENT_TURNS then FinalResponse
    else if s.needsHuman then HumanHandoff
    else if s.actions != [] && s.actions[|s.actions| - 1].requiresFollowup then Router
    else FinalResponse
  }

  // ---- the other nodes ----

  /** A specialist emits one action and may ask for a human, or it raises. */
  datatype SpecialistReply = Acts(action: Action, escalates: bool) | Raises(error: string)

  function ErrorAction(agent: string, error: string): Action {
    Action(agent, "agent_error", Given(Response("text", "something went wrong")), false,
           "Agent " + agent + " failed: " + error + ".", "")
  }

  function RunSafe(s: State, agent: Agent, reply: SpecialistReply): State {
    match reply
    case Acts(action, escalates) => s.(actions := [action], needsHuman := s.needsHuman || escalates)
    case Raises(error) => s.(actions := [ErrorAction(AgentName(agent), error)], needsHuman := false)
  }

  function Escalated(ticket: string): Action {
    Action("orchestrator", "escalated_to_human", Given(Response("handoff", ticket)), false, "", "")
  }

  function HandOff(s: State, ticket: string): State { s.(actions := [Escalated(ticket)]) }

  const PLEASE_WAIT := Response("handoff", "please wait")
  const NO_TEXT := Response("text", "")
  const COULD_NOT_PROCESS := Response("text", "could not process")

  function EntryOr(e: ResponseEntry, default: Response): Option<Response> {
    match e case Absent => Some(default) case Null => None case Given(r) => Some(r)
  }

  function Format(s: State): State {
    s.(finalResponse :=
      if s.needsHuman then
        (if s.actions == [] then Some(PLEASE_WAIT) else EntryOr(s.actions[|s.actions| - 1].response, PLEASE_WAIT))
      else if s.actions != [] then EntryOr(s.actions[|s.actions| - 1].response, NO_TEXT)
      else Some(COULD_NOT_PROCESS))
  }

  // ---- runs ----

  /** What the environment answers at a step; each node uses its own part. */
  datatype Input = Input(router: RouterReply, specialist: SpecialistReply, ticket: string)

  /** Where the run is, the channels, the nodes executed and the new actions they produced. */
  datatype Config = Config(at: Node, s: State, ran: seq<Node>, produced: seq<Action>)

  function RouterStep(cfg: Settings, c: Config, reply: RouterReply): Config {
    if reply.RouterRaises? && LastUserMessage(c.s.messages) != "" then c.(at := Crashed, ran := c.ran + [Router])
    else
      var s := Merge(c.s, Route(c.s, reply));
      Config(RouterEdge(DetermineNextAgent(cfg, s)), s, c.ran + [Router], c.produced + RouterAction(c.s, reply))
  }

  function SpecialistStep(c: Config, agent: Agent, reply: SpecialistReply): Config {
    var returned := RunSafe(c.s, agent, reply);
    var s := Merge(c.s, returned);
    Config(ShouldContinue(s), s, c.ran + [c.at], c.produced + returned.actions)
  }

  function Step(cfg: Settings, c: Config, i: Input): Config {
    match c.at
    case Router => RouterStep(cfg, c, i.router)
    case Specialist(agent) => SpecialistStep(c, agent, i.specialist)
    case HumanHandoff =>
      Config(FinalResponse, Merge(c.s, HandOff(c.s, i.ticket)), c.ran + [c.at], c.produced + [Escalated(i.ticket)])
    case FinalResponse => Config(End, Merge(c.s, Format(c.s)), c.ran + [c.at], c.produced)
    case _ => c
  }

  function Run(cfg: Settings, c: Config, inputs: seq<Input>): Config {
    if inputs == [] then c else Step(cfg, Run(cfg, c, inputs[..|inputs| - 1]), inputs[|inputs| - 1])
  }

  function Initial(message: string): Config {
    Config(Router, State([Message(User, message)], [], 0, false, "", 0.0, None, None), [], [])
  }

  // ---- the append reducer ----

  function Pow2(n: nat): nat { if n == 0 then 1 else 2 * Pow2(n - 1) }

  ghost predicate Last<T>(s: seq<T>, x: T) { s != [] && s[|s| - 1] == x }

  /** The actions channel ends with the latest new action and holds exactly the new actions. */
  ghost predicate ActionsReflect(actions: seq<Action>, produced: seq<Action>) {
    && (actions == [] <==> produced == [])
    && (produced != [] ==> Last(actions, produced[|produced| - 1]))
    && (forall a :: a in actions <==> a in produced)
  }

  lemma {:induction false} LastUserOfMerge(a: seq<Message>, b: seq<Message>)
    requires exists m :: m in b && m.role == User
    ensures LastUserMessage(a + b) == LastUserMessage(b)
    decreases |b|
  {
    var n := |b| - 1;
    assert (a + b)[|a + b| - 1] == b[n];
    if b[n].role != User {
      assert (a + b)[..|a + b| - 1] == a + b[..n];
      LastUserOfMerge(a, b[..n]);
    }
  }

  ghost predicate Channels(message: string, c: Config) {
    && (exists m :: m in c.s.messages && m.role == User)
    && LastUserMessage(c.s.messages) == message
    && (c.at != Crashed ==> |c.s.messages| == Pow2(|c.ran|))
    && ActionsReflect(c.s.actions, c.produced)
  }

  /** After a node the channels hold either the list twice over, or the list and one new action. */
  ghost predicate Appended(c: Config, n: Config) {
    && n.s.messages == c.s.messages + c.s.messages && n.ran == c.ran + [c.at]
    && ((n.s.actions == c.s.actions + c.s.actions && n.produced == c.produced)
        || exists a :: n.s.actions == c.s.actions + [a] && n.produced == c.produced + [a])
  }

  lemma RouterEffect(cfg: Settings, c: Config, reply: RouterReply)
    requires c.at == Router
    ensures var n := RouterStep(cfg, c, reply);
      || n == c.(at := Crashed, ran := c.ran + [Router])
      || (&& Appended(c, n) && n.s.turnCount == c.s.turnCount + 1 && n.s.needsHuman == c.s.needsHuman
          && !n.at.Router? && !n.at.End? && (n.at == HumanHandoff <==> c.s.needsHuman)
          && (n.at == FinalResponse ==> n.s.actions != []))
  {
    var n := RouterStep(cfg, c, reply);
    var returned := Route(c.s, reply);
    if n != c.(at := Crashed, ran := c.ran + [Router]) {
      assert n.s == Merge(c.s, returned) && returned.messages == c.s.messages;
      if RouterAction(c.s, reply) == [] {
        assert returned.actions == c.s.actions;
        assert n.produced == c.produced;
      } else {
        var a := RouterAction(c.s, reply)[0];
        assert RouterAction(c.s, reply) == [a];
        assert n.s.actions == c.s.actions + [a] && n.produced == c.produced + [a];
      }
    }
  }

  lemma SpecialistEffect(c: Config, agent: Agent, reply: SpecialistReply)
    ensures var n := SpecialistStep(c, agent, reply);
      && Appended(c, n) && n.s.turnCount == c.s.turnCount && n.s.actions != [] && n.at == ShouldContinue(n.s)
      && (reply.Raises? ==> !n.s.needsHuman)
      && (reply.Acts? ==> n.s.needsHuman == (c.s.needsHuman || reply.escalates))
  {
    var n := SpecialistStep(c, agent, reply);
    var a := RunSafe(c.s, agent, reply).actions[0];
    assert n.s.actions == c.s.actions + [a] && n.produced == c.produced + [a];
  }

  lemma StepEffect(cfg: Settings, c: Config, i: Input)
    ensures var n := Step(cfg, c, i);
      || n == c || n == c.(at := Crashed, ran := c.ran + [c.at]) || Appended(c, n)
  {
    match c.at
    case Router => RouterEffect(cfg, c, i.router);
    case Specialist(agent) => SpecialistEffect(c, agent, i.specialist);
    case HumanHandoff =>
      var n := Step(cfg, c, i);
      var a := Escalated(i.ticket);
      assert n.s.actions == c.s.actions + [a] && n.produced == c.produced + [a];
    case _ =>
  }

  lemma AppendedChannels(message: string, c: Config, n: Config)
    requires Channels(message, c) && c.at != Crashed && Appended(c, n)
    ensures Channels(message, n)
  {
    LastUserOfMerge(c.s.messages, c.s.messages);
    var m :| m in c.s.messages && m.role == User;
    assert m in n.s.messages;
    assert |n.ran| == |c.ran| + 1;
  }

  /**
   Main result: however often whole lists are handed back and appended to themselves, the last user
   message is the submitted one, the last action is the one most recently produced, and the actions
   are exactly those produced. The message list meanwhile doubles at every node.
   */
  lemma {:induction false} ChannelsAfterEveryRun(cfg: Settings, message: string, inputs: seq<Input>)
    ensures Channels(message, Run(cfg, Initial(message), inputs))
    decreases |inputs|
  {
    if inputs == [] {
      var c := Initial(message);
      assert c.s.messages[0] in c.s.messages;
    } else {
      var c, i := Run(cfg, Initial(message), inputs[..|inputs| - 1]), inputs[|inputs| - 1];
      ChannelsAfterEveryRun(cfg, message, inputs[..|inputs| - 1]);
      StepEffect(cfg, c, i);
      if c.at != Crashed && Appended(c, Step(cfg, c, i)) {
        AppendedChannels(message, c, Step(cfg, c, i));
      }
    }
  }

  // ---- termination ----

  /** Where a run can be, counted against the turns it has taken. */
  ghost predicate Paced(c: Config) {
    match c.at
    case Router => |c.ran| == 2 * c.s.turnCount && 0 <= c.s.turnCount < MAX_AGENT_TURNS
    case Specialist(_) => |c.ran| == 2 * c.s.turnCount - 1 && 1 <= c.s.turnCount <= MAX_AGENT_TURNS
    case HumanHandoff => |c.ran| <= 2 * MAX_AGENT_TURNS - 1
    case FinalResponse => |c.ran| <= 2 * MAX_AGENT_TURNS
    case _ => |c.ran| <= 2 * MAX_AGENT_TURNS + 1
  }

  function Visits(ran: seq<Node>, n: Node): nat {
    if ran == [] then 0 else Visits(ran[..|ran| - 1], n) + if ran[|ran| - 1] == n then 1 else 0
  }

  lemma StepPaced(cfg: Settings, c: Config, i: Input)
    requires Paced(c)
    ensures Paced(Step(cfg, c, i))
    ensures !c.at.End? && !c.at.Crashed? ==> |Step(cfg, c, i).ran| == |c.ran| + 1
    ensures Step(cfg, c, i).ran == c.ran || Step(cfg, c, i).ran == c.ran + [c.at]
  {
  }

  lemma VisitOneMore(ran: seq<Node>, n: Node, m: Node)
    ensures Visits(ran + [n], m) == Visits(ran, m) + if n == m then 1 else 0
  {
    assert (ran + [n])[..|ran|] == ran;
  }

  /** Turns are the router's completed visits; a raising router leaves its last visit uncounted. */
  ghost predicate TurnsMatch(c: Config) {
    && c.s.turnCount <= MAX_AGENT_TURNS
    && (Visits(c.ran, Router) == c.s.turnCount
        || (c.at == Crashed && Visits(c.ran, Router) == c.s.turnCount + 1 <= MAX_AGENT_TURNS))
  }

  /** Only the router takes a turn, unless it raises. */
  lemma StepTakesTurn(cfg: Settings, c: Config, i: Input)
    ensures var n := Step(cfg, c, i);
      && (n.s.turnCount == c.s.turnCount
          || (c.at == Router && n.s.turnCount == c.s.turnCount + 1))
      && (c.at == Router && n.at != Crashed ==> n.s.turnCount == c.s.turnCount + 1)
      && (n.ran == c.ran + [c.at] || (n == c && c.at != Router))
  {
    match c.at
    case Router => RouterEffect(cfg, c, i.router);
    case Specialist(agent) => SpecialistEffect(c, agent, i.specialist);
    case _ =>
  }

  lemma StepTurns(cfg: Settings, c: Config, i: Input)
    requires TurnsMatch(c) && Paced(c)
    ensures TurnsMatch(Step(cfg, c, i))
  {
    var n := Step(cfg, c, i);
    StepTakesTurn(cfg, c, i);
    VisitOneMore(c.ran, c.at, Router);
  }

  lemma {:induction false} TurnsAreRouterVisits(cfg: Settings, message: string, inputs: seq<Input>)
    ensures TurnsMatch(Run(cfg, Initial(message), inputs))
    decreases |inputs|
  {
    if inputs != [] {
      TurnsAreRouterVisits(cfg, message, inputs[..|inputs| - 1]);
      RunPaced(cfg, message, inputs[..|inputs| - 1]);
      StepTurns(cfg, Run(cfg, Initial(message), inputs[..|inputs| - 1]), inputs[|inputs| - 1]);
    }
  }

  lemma {:induction false} RunPaced(cfg: Settings, message: string, inputs: seq<Input>)
    ensures Paced(Run(cfg, Initial(message), inputs))
    ensures var c := Run(cfg, Initial(message), inputs);
      |c.ran| == |inputs| || (|c.ran| < |inputs| && (c.at == End || c.at == Crashed))
    decreases |inputs|
  {
    if inputs != [] {
      RunPaced(cfg, message, inputs[..|inputs| - 1]);
      StepPaced(cfg, Run(cfg, Initial(message), inputs[..|inputs| - 1]), inputs[|inputs| - 1]);
    }
  }

  /**
   Main result: whatever the model and the specialists answer, a run has ended after thirteen node
   executions, at most six of them visits to the router.
   */
  lemma EveryRunEnds(cfg: Settings, message: string, inputs: seq<Input>)
    ensures |Run(cfg, Initial(message), inputs).ran| <= 13
    ensures Visits(Run(cfg, Initial(message), inputs).ran, Router) <= 6
    ensures |inputs| >= 13 ==>
      Run(cfg, Initial(message), inputs).at == End || Run(cfg, Initial(message), inputs).at == Crashed
  {
    RunPaced(cfg, message, inputs);
    TurnsAreRouterVisits(cfg, message, inputs);
    if |inputs| >= 14 {
      RunPaced(cfg, message, inputs[..|inputs| - 1]);
    }
  }

  // ---- escalation ----

  /** A handoff comes at most once, below the cap, and leaves its message as the last action. */
  ghost predicate Settled(c: Config) {
    && c.s.actions != []
    && Visits(c.ran, HumanHandoff) == (if HumanHandoff in c.ran then 1 else 0)
    && (HumanHandoff in c.ran ==> c.s.needsHuman && exists ticket :: Last(c.s.actions, Escalated(ticket)))
    && (c.s.needsHuman && HumanHandoff !in c.ran ==> c.s.turnCount >= MAX_AGENT_TURNS)
    && (HumanHandoff in c.ran ==> c.s.turnCount < MAX_AGENT_TURNS)
  }

  ghost predicate Escalation(c: Config) {
    match c.at
    case Router => !c.s.needsHuman && HumanHandoff !in c.ran
    case Specialist(_) => !c.s.needsHuman && HumanHandoff !in c.ran
    case HumanHandoff => c.s.needsHuman && HumanHandoff !in c.ran && c.s.turnCount < MAX_AGENT_TURNS
    case FinalResponse => Settled(c)
    case End =>
      Settled(c) && c.s.finalResponse
        == EntryOr(c.s.actions[|c.s.actions| - 1].response, if c.s.needsHuman then PLEASE_WAIT else NO_TEXT)
    case Crashed => HumanHandoff !in c.ran
  }

  lemma {:induction false} NotVisited(ran: seq<Node>, n: Node)
    requires n !in ran
    ensures Visits(ran, n) == 0
  {
    if ran != [] { NotVisited(ran[..|ran| - 1], n); }
  }

  lemma StepEscalation(cfg: Settings, c: Config, i: Input)
    requires Escalation(c)
    ensures Escalation(Step(cfg, c, i))
  {
    var n := Step(cfg, c, i);
    VisitOneMore(c.ran, c.at, HumanHandoff);
    if HumanHandoff !in c.ran { NotVisited(c.ran, HumanHandoff); }
    match c.at
    case Router => RouterEffect(cfg, c, i.router);
    case Specialist(agent) => SpecialistEffect(c, agent, i.specialist);
    case HumanHandoff =>
      assert n.s.actions == c.s.actions + [Escalated(i.ticket)];
      assert Last(n.s.actions, Escalated(i.ticket));
    case FinalResponse =>
      assert n.s.actions == c.s.actions + c.s.actions;
      assert n.s.actions[|n.s.actions| - 1] == c.s.actions[|c.s.actions| - 1];
    case _ =>
  }

  lemma {:induction false} EscalationHolds(cfg: Settings, message: string, inputs: seq<Input>)
    ensures Escalation(Run(cfg, Initial(message), inputs))
    decreases |inputs|
  {
    if inputs != [] {
      EscalationHolds(cfg, message, inputs[..|inputs| - 1]);
      StepEscalation(cfg, Run(cfg, Initial(message), inputs[..|inputs| - 1]), inputs[|inputs| - 1]);
    }
  }

  /**
   Main result: in a run that ended below the turn cap a human was needed exactly when the handoff
   ran, and it ran once; then the handoff message is the final response. At the cap there is no
   handoff. The final response is missing exactly when the last action carries an explicit null.
   */
  lemma EscalationAfterEveryRun(cfg: Settings, message: string, inputs: seq<Input>)
    requires Run(cfg, Initial(message), inputs).at == End
    ensures var c := Run(cfg, Initial(message), inputs);
      && (c.s.turnCount < MAX_AGENT_TURNS ==> (c.s.needsHuman <==> HumanHandoff in c.ran))
      && (c.s.turnCount >= MAX_AGENT_TURNS ==> HumanHandoff !in c.ran)
      && Visits(c.ran, HumanHandoff) <= 1
      && (HumanHandoff in c.ran ==> exists ticket :: c.s.finalResponse == Some(Response("handoff", ticket)))
      && c.produced != []
      && (c.s.finalResponse == None <==> c.produced[|c.produced| - 1].response == Null)
  {
    EscalationHolds(cfg, message, inputs);
    ChannelsAfterEveryRun(cfg, message, inputs);
    EndedEscalation(message, Run(cfg, Initial(message), inputs));
  }

  lemma EndedEscalation(message: string, c: Config)
    requires Escalation(c) && Channels(message, c) && c.at == End
    ensures c.s.turnCount < MAX_AGENT_TURNS ==> (c.s.needsHuman <==> HumanHandoff in c.ran)
    ensures c.s.turnCount >= MAX_AGENT_TURNS ==> HumanHandoff !in c.ran
    ensures Visits(c.ran, HumanHandoff) <= 1
    ensures HumanHandoff in c.ran ==> exists ticket :: c.s.finalResponse == Some(Response("handoff", ticket))
    ensures c.produced != [] && (c.s.finalResponse == None <==> c.produced[|c.produced| - 1].response == Null)
  {
    if HumanHandoff in c.ran {
      var ticket :| Last(c.s.actions, Escalated(ticket));
      assert c.s.finalResponse == Some(Response("handoff", ticket));
    }
  }

  // ---- follow-ups ----

  /** Where a run is after its first k steps. */
  function ConfigAt(cfg: Settings, message: string, inputs: seq<Input>, k: nat): Config
    requires k <= |inputs|
  {
    if k == 0 then Initial(message) else Step(cfg, ConfigAt(cfg, message, inputs, k - 1), inputs[k - 1])
  }

  lemma {:induction false} ConfigIsRun(cfg: Settings, message: string, inputs: seq<Input>, k: nat)
    requires k <= |inputs|
    ensures ConfigAt(cfg, message, inputs, k) == Run(cfg, Initial(message), inputs[..k])
  {
    if k > 0 {
      ConfigIsRun(cfg, message, inputs, k - 1);
      assert inputs[..k][..k - 1] == inputs[..k - 1];
    }
  }

  /** After n steps of a run that had `there` as its (k + 1)-th node. */
  ghost predicate Traced(c: Config, n: nat, k: nat, there: Node) {
    && |c.ran| <= n && (|c.ran| < n ==> c.at == End || c.at == Crashed)
    && (k < |c.ran| ==> c.ran[k] == there)
  }

  lemma StepTraced(cfg: Settings, c: Config, i: Input, n: nat, k: nat, there: Node)
    requires Traced(c, n, k, there) && (k == n ==> c.at == there)
    ensures Traced(Step(cfg, c, i), n + 1, k, there)
  {
    StepRecordsNode(cfg, c, i);
  }

  /** The nodes executed are the nodes the run was at. */
  lemma {:induction false} RanIsTrace(cfg: Settings, message: string, inputs: seq<Input>, n: nat, k: nat)
    requires n <= |inputs| && k <= |inputs|
    ensures Traced(ConfigAt(cfg, message, inputs, n), n, k, ConfigAt(cfg, message, inputs, k).at)
  {
    if n > 0 {
      RanIsTrace(cfg, message, inputs, n - 1, k);
      var there := ConfigAt(cfg, message, inputs, k).at;
      StepTraced(cfg, ConfigAt(cfg, message, inputs, n - 1), inputs[n - 1], n - 1, k, there);
    }
  }

  lemma StepRecordsNode(cfg: Settings, c: Config, i: Input)
    ensures if c.at == End || c.at == Crashed then Step(cfg, c, i) == c else Step(cfg, c, i).ran == c.ran + [c.at]
  {
  }

  /** A specialist's answer that asks for the router: it acts, needs no human and wants a follow-up. */
  predicate AsksFollowUp(r: SpecialistReply) { r.Acts? && !r.escalates && r.action.requiresFollowup }

  /** Where the workflow goes after a specialist that ran as its (k + 1)-th node. */
  function AfterSpecialist(r: SpecialistReply, k: nat): Node {
    if r.Raises? || k + 1 >= 2 * MAX_AGENT_TURNS then FinalResponse
    else if r.escalates then HumanHandoff
    else if r.action.requiresFollowup then Router
    else FinalResponse
  }

  /** In every run, what a specialist answers, and how late it answers, decides the next node alone. */
  lemma SpecialistDecidesNext(cfg: Settings, message: string, inputs: seq<Input>, k: nat)
    requires k < |inputs| && ConfigAt(cfg, message, inputs, k).at.Specialist?
    ensures ConfigAt(cfg, message, inputs, k + 1).at == AfterSpecialist(inputs[k].specialist, k)
    ensures inputs[k].specialist.Acts? ==>
      && Last(ConfigAt(cfg, message, inputs, k + 1).produced, inputs[k].specialist.action)
      && Last(ConfigAt(cfg, message, inputs, k + 1).s.actions, inputs[k].specialist.action)
  {
    var c, r := ConfigAt(cfg, message, inputs, k), inputs[k].specialist;
    ConfigIsRun(cfg, message, inputs, k);
    RunPaced(cfg, message, inputs[..k]);
    EscalationHolds(cfg, message, inputs[..k]);
    SpecialistEffect(c, c.at.agent, r);
    if r.Acts? {
      var n := SpecialistStep(c, c.at.agent, r);
      assert n.s.actions == c.s.actions + [r.action] && n.produced == c.produced + [r.action];
    } else {
      RaiseEndsWork(c, c.at.agent, r);
    }
  }

  lemma RaiseEndsWork(c: Config, agent: Agent, r: SpecialistReply)
    requires r.Raises?
    ensures SpecialistStep(c, agent, r).at == FinalResponse
  {
    var a := ErrorAction(AgentName(agent), r.error);
    var n := SpecialistStep(c, agent, r);
    assert n.s.actions == c.s.actions + [a];
    assert n.s.actions[|n.s.actions| - 1] == a;
  }

  /** Only a specialist leads back to the router. */
  lemma RouterComesFromSpecialist(cfg: Settings, c: Config, i: Input)
    requires Step(cfg, c, i).at == Router
    ensures c.at.Specialist?
  {
    if c.at == Router { RouterEffect(cfg, c, i.router); }
  }

  lemma RouterRemembers(cfg: Settings, c: Config, reply: RouterReply)
    requires c.at == Router && c.s.actions != [] && !(reply.RouterRaises? && LastUserMessage(c.s.messages) != "")
    ensures RouterStep(cfg, c, reply).s.lastHandoff == Some(Normalize(c.s.actions[|c.s.actions| - 1]))
  {
  }

  predicate RouterRaisesOn(message: string, reply: RouterReply) { reply.RouterRaises? && message != "" }

  /**
   The (k + 2)-th node, a router visit, follows an action that asked for it, and the handoff that the
   visit remembers is that action, unless classifying raises.
   */
  ghost predicate ReadsFollowUp(cfg: Settings, message: string, inputs: seq<Input>, k: nat)
    requires k + 1 < |inputs|
  {
    var r := inputs[k].specialist;
    && AsksFollowUp(r)
    && Last(ConfigAt(cfg, message, inputs, k + 1).produced, r.action)
    && (RouterRaisesOn(message, inputs[k + 1].router)
        || ConfigAt(cfg, message, inputs, k + 2).s.lastHandoff == Some(Normalize(r.action)))
  }

  lemma MessageAt(cfg: Settings, message: string, inputs: seq<Input>, k: nat)
    requires k <= |inputs|
    ensures LastUserMessage(ConfigAt(cfg, message, inputs, k).s.messages) == message
  {
    ConfigIsRun(cfg, message, inputs, k);
    ChannelsAfterEveryRun(cfg, message, inputs[..k]);
  }

  lemma RouterRemembersAt(cfg: Settings, message: string, inputs: seq<Input>, k: nat, a: Action)
    requires k < |inputs| && ConfigAt(cfg, message, inputs, k).at == Router
    requires Last(ConfigAt(cfg, message, inputs, k).s.actions, a) && !RouterRaisesOn(message, inputs[k].router)
    ensures ConfigAt(cfg, message, inputs, k + 1).s.lastHandoff == Some(Normalize(a))
  {
    MessageAt(cfg, message, inputs, k);
    var c := ConfigAt(cfg, message, inputs, k);
    assert ConfigAt(cfg, message, inputs, k + 1) == RouterStep(cfg, c, inputs[k].router);
    RouterRemembers(cfg, c, inputs[k].router);
  }

  lemma SpecialistBefore(cfg: Settings, message: string, inputs: seq<Input>, k: nat)
    requires k < |inputs| && ConfigAt(cfg, message, inputs, k + 1).at == Router
    ensures ConfigAt(cfg, message, inputs, k).at.Specialist?
  {
    RouterComesFromSpecialist(cfg, ConfigAt(cfg, message, inputs, k), inputs[k]);
  }

  lemma OnlyFollowUpsReturn(r: SpecialistReply, k: nat)
    requires AfterSpecialist(r, k) == Router
    ensures AsksFollowUp(r)
  {
  }

  /** What leads back to the router is a specialist that asked for it. */
  lemma FollowUpAsked(cfg: Settings, message: string, inputs: seq<Input>, k: nat)
    requires k < |inputs| && ConfigAt(cfg, message, inputs, k + 1).at == Router
    ensures ConfigAt(cfg, message, inputs, k).at.Specialist? && AsksFollowUp(inputs[k].specialist)
    ensures Last(ConfigAt(cfg, message, inputs, k + 1).produced, inputs[k].specialist.action)
    ensures Last(ConfigAt(cfg, message, inputs, k + 1).s.actions, inputs[k].specialist.action)
  {
    SpecialistBefore(cfg, message, inputs, k);
    SpecialistDecidesNext(cfg, message, inputs, k);
    OnlyFollowUpsReturn(inputs[k].specialist, k);
  }

  lemma RouterVisit(cfg: Settings, message: string, inputs: seq<Input>, k: nat)
    requires k + 1 < |inputs| && ConfigAt(cfg, message, inputs, k + 1).at == Router
    ensures ConfigAt(cfg, message, inputs, k).at.Specialist? && ReadsFollowUp(cfg, message, inputs, k)
  {
    FollowUpAsked(cfg, message, inputs, k);
    if !RouterRaisesOn(message, inputs[k + 1].router) {
      RouterRemembersAt(cfg, message, inputs, k + 1, inputs[k].specialist.action);
    }
  }

  lemma RecordedNode(cfg: Settings, message: string, inputs: seq<Input>, k: nat)
    requires k < |Run(cfg, Initial(message), inputs).ran|
    ensures k < |inputs| && Run(cfg, Initial(message), inputs).ran[k] == ConfigAt(cfg, message, inputs, k).at
  {
    RunPaced(cfg, message, inputs);
    assert inputs[..|inputs|] == inputs;
    ConfigIsRun(cfg, message, inputs, |inputs|);
    RanIsTrace(cfg, message, inputs, |inputs|, k);
  }

  /**
   Main result: in every run, each router visit but the first comes right after a specialist that
   acted, needed no human and asked for a follow-up, and the handoff the visit remembers is that
   specialist's action, whatever was appended to the action list before.
   */
  lemma FollowUpsReadTheirSpecialist(cfg: Settings, message: string, inputs: seq<Input>, k: nat)
    requires var ran := Run(cfg, Initial(message), inputs).ran; k + 1 < |ran| && ran[k + 1] == Router
    ensures k + 1 < |inputs| && Run(cfg, Initial(message), inputs).ran[k].Specialist?
    ensures ReadsFollowUp(cfg, message, inputs, k)
  {
    RecordedNode(cfg, message, inputs, k);
    RecordedNode(cfg, message, inputs, k + 1);
    RouterVisit(cfg, message, inputs, k);
  }

  // ---- what the router writes ----

  predicate Classification(s: State) { s.intent in ROUTER_INTENTS && 0.0 <= s.confidence <= 1.0 }

  /** Where the router may send work: by suggestion, by intent, or to support, always registered. */
  predicate Chosen(cfg: Settings, s: State, a: Agent) {
    && a != RouterAgent && Registered(cfg, a)
    && (a == Support || a == AgentForIntent(s.intent) || AgentName(a) == Suggested(s))
  }

  lemma ClassifyWrites(s: State, reply: RouterReply)
    requires !RouterRaisesOn(LastUserMessage(s.messages), reply)
    ensures Classification(Classify(s, reply)) && |RouterAction(s, reply)| <= 1
  {
    assert "general_info" in ROUTER_INTENTS;
  }

  /** Once the router has run, every state of a run has a known intent, a confidence in [0, 1]. */
  ghost predicate Routed(cfg: Settings, c: Config) {
    && (c.s.turnCount >= 1 ==> Classification(c.s))
    && (c.s.turnCount <= 0 ==> c.at == Router || c.at == Crashed)
    && c.s.turnCount >= 0
    && (c.at.Specialist? ==> Chosen(cfg, c.s, c.at.agent))
  }

  lemma DetermineChooses(cfg: Settings, s: State)
    requires RouterEdge(DetermineNextAgent(cfg, s)).Specialist?
    ensures Chosen(cfg, s, RouterEdge(DetermineNextAgent(cfg, s)).agent)
  {
    RoutesToRegisteredSpecialist(cfg, s);
    NamedIsRegistered(cfg, Suggested(s), 0);
  }

  lemma StepRouted(cfg: Settings, c: Config, i: Input)
    requires Routed(cfg, c)
    ensures Routed(cfg, Step(cfg, c, i))
  {
    match c.at
    case Router =>
      if !RouterRaisesOn(LastUserMessage(c.s.messages), i.router) {
        ClassifyWrites(c.s, i.router);
        var s := Merge(c.s, Route(c.s, i.router));
        if RouterEdge(DetermineNextAgent(cfg, s)).Specialist? { DetermineChooses(cfg, s); }
      }
    case Specialist(agent) => SpecialistEffect(c, agent, i.specialist);
    case _ =>
  }

  lemma {:induction false} RoutedAfterEveryRun(cfg: Settings, message: string, inputs: seq<Input>)
    ensures Routed(cfg, Run(cfg, Initial(message), inputs))
    decreases |inputs|
  {
    if inputs != [] {
      RoutedAfterEveryRun(cfg, message, inputs[..|inputs| - 1]);
      StepRouted(cfg, Run(cfg, Initial(message), inputs[..|inputs| - 1]), inputs[|inputs| - 1]);
    }
  }

  /**
   No intent the router may write leads to the notification agent, although the intent map has an
   entry for it: in every run that agent works only because a specialist suggested it.
   */
  lemma NotificationOnlyBySuggestion(cfg: Settings, message: string, inputs: seq<Input>)
    requires Run(cfg, Initial(message), inputs).at == Specialist(Notification)
    ensures Suggested(Run(cfg, Initial(message), inputs).s) == "notification"
  {
    RoutedAfterEveryRun(cfg, message, inputs);
    ChosenNotification(cfg, Run(cfg, Initial(message), inputs).s);
  }

  lemma ChosenNotification(cfg: Settings, s: State)
    requires Classification(s) && Chosen(cfg, s, Notification)
    ensures Suggested(s) == "notification"
  {
    assert "notification_query" !in ROUTER_INTENTS;
  }

  // ---- missing edges ----

  lemma {:induction false} NamedFromFinds(cfg: Settings, name: string, i: nat)
    ensures NamedFrom(cfg, name, i) == Some(RouterAgent) <==> i == 0 && name == "router"
    decreases |AGENTS| - i
  {
    if i < |AGENTS| {
      NamedFromFinds(cfg, name, i + 1);
      assert AGENTS[0] == RouterAgent && forall j | 0 < j < |AGENTS| :: AGENTS[j] != RouterAgent;
    }
  }

  /**
   The router's choice has no outgoing edge exactly when a specialist suggested the router itself
   and the suggestion is followed.
   */
  lemma EdgeMissingIff(cfg: Settings, s: State)
    ensures RouterEdge(DetermineNextAgent(cfg, s)) == Crashed
       <==> !s.needsHuman && s.confidence >= cfg.threshold && Suggested(s) == "router"
            && (ShortMessage(s) || 0.5 <= s.confidence <= 0.75)
  {
    NamedFromFinds(cfg, Suggested(s), 0);
  }

  lemma {:induction false} NamedIsRegistered(cfg: Settings, name: string, i: nat)
    ensures NamedFrom(cfg, name, i).Some? ==>
      Registered(cfg, NamedFrom(cfg, name, i).value) && AgentName(NamedFrom(cfg, name, i).value) == name
    decreases |AGENTS| - i
  {
    if i < |AGENTS| { NamedIsRegistered(cfg, name, i + 1); }
  }

  /** The router only ever sends work to a registered specialist, whatever was classified or suggested. */
  lemma RoutesToRegisteredSpecialist(cfg: Settings, s: State)
    requires RouterEdge(DetermineNextAgent(cfg, s)).Specialist?
    ensures Registered(cfg, RouterEdge(DetermineNextAgent(cfg, s)).agent)
    ensures RouterEdge(DetermineNextAgent(cfg, s)).agent != RouterAgent
  {
    NamedIsRegistered(cfg, Suggested(s), 0);
  }

  /** The confidence the router writes for a message: none without one, a half when it is unreadable. */
  function ConfidenceFor(message: string, reply: RouterReply): real {
    if message == "" then 0.0
    else if !reply.Classified? || reply.confidence == None then 0.5
    else if reply.confidence.value < 0.0 then 0.0
    else if reply.confidence.value > 1.0 then 1.0
    else reply.confidence.value
  }

  /** What makes the router's (k + 1)-th node visit fail, told from the inputs alone. */
  predicate RouterFails(cfg: Settings, message: string, inputs: seq<Input>, k: nat)
    requires k < |inputs|
  {
    || RouterRaisesOn(message, inputs[k].router)
    || (&& k > 0 && inputs[k - 1].specialist.Acts? && Strip(inputs[k - 1].specialist.action.suggestedAgent) == "router"
        && ConfidenceFor(message, inputs[k].router) >= cfg.threshold
        && (|Strip(message)| <= 30 || 0.5 <= ConfidenceFor(message, inputs[k].router) <= 0.75))
  }

  // ---- where the router sends a message ----

  const INTENT_AGENTS: map<string, Agent> := map[
    "contractor_search" := Matching, "pricing_question" := Pricing, "order_status" := Support,
    "complaint" := Support, "contractor_verification" := Vetting, "analytics_query" := Analytics,
    "general_info" := Support, "technical_support" := Support, "architecture_analysis" := Architecture,
    "payment_query" := Payment, "viral_invite_query" := Outreach, "building_social_proof" := Pricing,
    "influencer_campaign" := Influencer]

  const AGENTS_BY_NAME: map<string, Agent> := map[
    "router" := RouterAgent, "support" := Support, "matching" := Matching, "pricing" := Pricing,
    "vetting" := Vetting, "outreach" := Outreach, "analytics" := Analytics, "architecture" := Architecture,
    "influencer" := Influencer, "notification" := Notification, "payment" := Payment]

  /** What the message is taken to be about; an unknown intent counts as general information. */
  function IntentFor(message: string, reply: RouterReply): string {
    if message != "" && reply.Classified? && reply.intent in INTENT_AGENTS then reply.intent else "general_info"
  }

  /** The router asks back: it understood nothing, or is less than 70% sure and has a question. */
  predicate AsksBack(message: string, reply: RouterReply) {
    && message != ""
    && (reply.ParseError? || (reply.Classified? && ConfidenceFor(message, reply) < 0.7 && reply.question != ""))
  }

  function SuggestionOf(before: Option<Action>): string {
    if before == None then "" else Strip(before.value.suggestedAgent)
  }

  /** The suggestion names an agent there is, and the message is short or the router half sure. */
  predicate SuggestionCounts(cfg: Settings, message: string, reply: RouterReply, suggestion: string) {
    && suggestion in AGENTS_BY_NAME && (suggestion == "payment" ==> cfg.hasPayment)
    && (|Strip(message)| <= 30 || 0.5 <= ConfidenceFor(message, reply) <= 0.75)
  }

  /** Where the run goes, from the message, the router's reply and the action before it. */
  function NextAfterRouter(cfg: Settings, message: string, reply: RouterReply, before: Option<Action>): Node {
    if ConfidenceFor(message, reply) < cfg.threshold then
      if AsksBack(message, reply) || (before.Some? && before.value.name == "clarification_needed") then FinalResponse
      else Specialist(Support)
    else if SuggestionCounts(cfg, message, reply, SuggestionOf(before)) then
      if SuggestionOf(before) == "router" then Crashed else Specialist(AGENTS_BY_NAME[SuggestionOf(before)])
    else
      var agent := INTENT_AGENTS[IntentFor(message, reply)];
      Specialist(if agent == Payment && !cfg.hasPayment then Support else agent)
  }

  lemma IntentsAre(intent: string)
    ensures intent in ROUTER_INTENTS <==> intent in INTENT_AGENTS
    ensures intent in INTENT_AGENTS ==> AgentForIntent(intent) == INTENT_AGENTS[intent]
  {
  }

  lemma NamesAre(a: Agent)
    ensures AgentName(a) in AGENTS_BY_NAME && AGENTS_BY_NAME[AgentName(a)] == a
  {
  }

  lemma NameOf(name: string)
    ensures name in AGENTS_BY_NAME ==> AgentName(AGENTS_BY_NAME[name]) == name
  {
  }

  lemma {:induction false} RegisteredIsNamed(cfg: Settings, i: nat, j: nat)
    requires i <= j < |AGENTS| && Registered(cfg, AGENTS[j])
    ensures NamedFrom(cfg, AgentName(AGENTS[j]), i).Some?
    decreases j - i
  {
    if i < j { RegisteredIsNamed(cfg, i + 1, j); }
  }

  lemma EveryAgentListed(a: Agent) returns (j: nat)
    ensures j < |AGENTS| && AGENTS[j] == a
  {
    j := match a case RouterAgent => 0 case Support => 1 case Matching => 2 case Pricing => 3 case Vetting => 4
      case Outreach => 5 case Analytics => 6 case Architecture => 7 case Influencer => 8 case Notification => 9
      case Payment => 10;
  }

  lemma AgentNamedIs(cfg: Settings, name: string)
    ensures AgentNamed(cfg, name)
         == if name in AGENTS_BY_NAME && (name == "payment" ==> cfg.hasPayment) then Some(AGENTS_BY_NAME[name])
            else None
  {
    NamedIsRegistered(cfg, name, 0);
    NameOf(name);
    if AgentNamed(cfg, name).Some? { NamesAre(AgentNamed(cfg, name).value); }
    if name in AGENTS_BY_NAME && (name == "payment" ==> cfg.hasPayment) {
      NamesAre(Payment);
      var j := EveryAgentListed(AGENTS_BY_NAME[name]);
      RegisteredIsNamed(cfg, 0, j);
    }
  }

  /** What the decision looks at in the state that the router leaves. */
  ghost predicate Presented(message: string, reply: RouterReply, before: Option<Action>, s: State) {
    && !s.needsHuman && s.confidence == ConfidenceFor(message, reply) && LastUserMessage(s.messages) == message
    && s.intent == IntentFor(message, reply) && Suggested(s) == SuggestionOf(before)
    && ((s.actions != [] && s.actions[|s.actions| - 1].name == "clarification_needed") <==>
          AsksBack(message, reply) || (before.Some? && before.value.name == "clarification_needed"))
  }

  lemma PresentedDecides(cfg: Settings, message: string, reply: RouterReply, before: Option<Action>, s: State)
    requires Presented(message, reply, before, s)
    ensures RouterEdge(DetermineNextAgent(cfg, s)) == NextAfterRouter(cfg, message, reply, before)
  {
    AgentNamedIs(cfg, SuggestionOf(before));
    if SuggestionOf(before) in AGENTS_BY_NAME { NameOf(SuggestionOf(before)); }
    IntentsAre(IntentFor(message, reply));
  }

  lemma RoutedClassification(message: string, s: State, reply: RouterReply)
    requires LastUserMessage(s.messages) == message && !RouterRaisesOn(message, reply)
    ensures Route(s, reply).confidence == ConfidenceFor(message, reply)
    ensures Route(s, reply).intent == IntentFor(message, reply)
  {
    if reply.Classified? { IntentsAre(reply.intent); }
  }

  lemma RoutedSuggestion(s: State, reply: RouterReply, before: Option<Action>)
    requires if before == None then s.actions == [] else Last(s.actions, before.value)
    ensures Suggested(Route(s, reply)) == SuggestionOf(before)
  {
  }

  lemma RoutedActions(message: string, s: State, reply: RouterReply, before: Option<Action>)
    requires LastUserMessage(s.messages) == message
    requires if before == None then s.actions == [] else Last(s.actions, before.value)
    ensures var actions := s.actions + Route(s, reply).actions;
      (actions != [] && actions[|actions| - 1].name == "clarification_needed") <==>
        AsksBack(message, reply) || (before.Some? && before.value.name == "clarification_needed")
  {
    if RouterAction(s, reply) != [] {
      assert Route(s, reply).actions == [RouterAction(s, reply)[0]];
    } else {
      assert Route(s, reply).actions == s.actions;
    }
  }

  lemma MergePresents(message: string, reply: RouterReply, before: Option<Action>, s: State, returned: State)
    requires LastUserMessage(s.messages + s.messages) == message && returned.messages == s.messages
    requires !returned.needsHuman && returned.confidence == ConfidenceFor(message, reply)
    requires returned.intent == IntentFor(message, reply) && Suggested(returned) == SuggestionOf(before)
    requires var actions := s.actions + returned.actions;
      (actions != [] && actions[|actions| - 1].name == "clarification_needed") <==>
        AsksBack(message, reply) || (before.Some? && before.value.name == "clarification_needed")
    ensures Presented(message, reply, before, Merge(s, returned))
  {
  }

  lemma RouterPresents(message: string, c: Config, reply: RouterReply, before: Option<Action>)
    requires c.at == Router && Channels(message, c) && !RouterRaisesOn(message, reply) && !c.s.needsHuman
    requires if before == None then c.s.actions == [] else Last(c.s.actions, before.value)
    ensures Presented(message, reply, before, Merge(c.s, Route(c.s, reply)))
  {
    LastUserOfMerge(c.s.messages, c.s.messages);
    RoutedClassification(message, c.s, reply);
    RoutedSuggestion(c.s, reply, before);
    RoutedActions(message, c.s, reply, before);
    MergePresents(message, reply, before, c.s, Route(c.s, reply));
  }

  /**
   Main result: in every run, a router visit that does not raise goes where the message, the reply and
   the preceding specialist's action say, and nothing else that happened matters.
   */
  lemma RouterDecidesNext(cfg: Settings, message: string, inputs: seq<Input>, k: nat)
    requires k < |inputs| && ConfigAt(cfg, message, inputs, k).at == Router
    requires !RouterRaisesOn(message, inputs[k].router)
    ensures k > 0 ==> inputs[k - 1].specialist.Acts?
    ensures ConfigAt(cfg, message, inputs, k + 1).at
         == NextAfterRouter(cfg, message, inputs[k].router,
                            if k == 0 then None else Some(inputs[k - 1].specialist.action))
  {
    if k > 0 { FollowUpAsked(cfg, message, inputs, k - 1); }
    var before := if k == 0 then None else Some(inputs[k - 1].specialist.action);
    RouterTarget(cfg, message, inputs, k, before);
  }

  lemma RouterTarget(cfg: Settings, message: string, inputs: seq<Input>, k: nat, before: Option<Action>)
    requires k < |inputs| && ConfigAt(cfg, message, inputs, k).at == Router
    requires !RouterRaisesOn(message, inputs[k].router)
    requires var actions := ConfigAt(cfg, message, inputs, k).s.actions;
      if before == None then actions == [] else Last(actions, before.value)
    ensures ConfigAt(cfg, message, inputs, k + 1).at == NextAfterRouter(cfg, message, inputs[k].router, before)
  {
    var c, reply := ConfigAt(cfg, message, inputs, k), inputs[k].router;
    ConfigIsRun(cfg, message, inputs, k);
    ChannelsAfterEveryRun(cfg, message, inputs[..k]);
    EscalationHolds(cfg, message, inputs[..k]);
    RouterPresents(message, c, reply, before);
    PresentedDecides(cfg, message, reply, before, Merge(c.s, Route(c.s, reply)));
    assert ConfigAt(cfg, message, inputs, k + 1) == RouterStep(cfg, c, reply);
  }

  lemma OthersNeverCrash(cfg: Settings, c: Config, i: Input)
    requires c.at != Router && c.at != Crashed
    ensures Step(cfg, c, i).at != Crashed
  {
  }

  lemma RouterCrashesIff(cfg: Settings, message: string, inputs: seq<Input>, k: nat)
    requires k < |inputs| && ConfigAt(cfg, message, inputs, k).at == Router
    ensures ConfigAt(cfg, message, inputs, k + 1).at == Crashed <==> RouterFails(cfg, message, inputs, k)
  {
    if RouterRaisesOn(message, inputs[k].router) {
      MessageAt(cfg, message, inputs, k);
    } else {
      RouterDecidesNext(cfg, message, inputs, k);
    }
  }

  /**
   Main result: at any point of any run, a step makes the workflow raise if and only if it is a
   router visit whose classification raises, or whose followed suggestion, made by the specialist
   just before it, names the router.
   */
  lemma CrashesIff(cfg: Settings, message: string, inputs: seq<Input>, k: nat)
    requires k < |inputs|
    ensures (ConfigAt(cfg, message, inputs, k).at != Crashed && ConfigAt(cfg, message, inputs, k + 1).at == Crashed)
       <==> (ConfigAt(cfg, message, inputs, k).at == Router && RouterFails(cfg, message, inputs, k))
  {
    var c := ConfigAt(cfg, message, inputs, k);
    if c.at == Router {
      RouterCrashesIff(cfg, message, inputs, k);
    } else if c.at != Crashed {
      OthersNeverCrash(cfg, c, inputs[k]);
    }
  }

  function SelfSuggesting(): Input {
    Input(Classified("contractor_search", Some(0.9), ""),
          Acts(Action("matching", "recommend_contractors", Absent, true, "", "router"), false), "")
  }

  /** On any short message, a specialist that suggests the router for a follow-up breaks the run. */
  lemma RouterSuggestionCrashes(cfg: Settings, message: string, inputs: seq<Input>)
    requires cfg.threshold <= 0.9 && 0 < |message| <= 30
    requires |inputs| == 3 && forall k | 0 <= k < 3 :: inputs[k] == SelfSuggesting()
    ensures Run(cfg, Initial(message), inputs).at == Crashed
  {
    FirstVisitMatches(cfg, message, inputs);
    SpecialistDecidesNext(cfg, message, inputs, 1);
    SelfSuggestionFails(cfg, message, inputs);
    CrashesIff(cfg, message, inputs, 2);
    ConfigIsRun(cfg, message, inputs, 3);
    assert inputs[..3] == inputs;
  }

  lemma SelfSuggestionFails(cfg: Settings, message: string, inputs: seq<Input>)
    requires cfg.threshold <= 0.9 && 0 < |message| <= 30
    requires |inputs| == 3 && inputs[1] == inputs[2] == SelfSuggesting()
    ensures RouterFails(cfg, message, inputs, 2)
  {
    assert Strip("router") == "router";
    StripShortens(message);
  }

  /** Stripping takes blanks, tabs and line ends off both ends, and nothing else. */
  lemma {:induction false} StripMeaning(s: string) returns (front: string, back: string)
    ensures s == front + Strip(s) + back
    ensures forall c | c in front || c in back :: c in {' ', '\t', '\n', '\r'}
    ensures Strip(s) != "" ==> Strip(s)[0] !in {' ', '\t', '\n', '\r'}
    ensures Strip(s) != "" ==> Strip(s)[|Strip(s)| - 1] !in {' ', '\t', '\n', '\r'}
    decreases |s|
  {
    front, back := "", "";
    if s == "" {
    } else if Space(s[0]) {
      var rest;
      rest, back := StripMeaning(s[1..]);
      front := [s[0]] + rest;
    } else if Space(s[|s| - 1]) {
      var rest;
      front, rest := StripMeaning(s[..|s| - 1]);
      back := rest + [s[|s| - 1]];
    }
  }

  lemma StripShortens(s: string)
    ensures |Strip(s)| <= |s|
  {
  }

  lemma SelfSuggestingRoutesToMatching(cfg: Settings, message: string)
    requires cfg.threshold <= 0.9 && message != ""
    ensures Step(cfg, Initial(message), SelfSuggesting()).at == Specialist(Matching)
  {
    var c, reply := Initial(message), SelfSuggesting().router;
    assert c.s.messages[|c.s.messages| - 1] == Message(User, message);
    assert LastUserMessage(c.s.messages) == message;
    var s := Merge(c.s, Route(c.s, reply));
    assert s.lastHandoff == None && s.confidence == 0.9 && s.intent == "contractor_search";
    RoutesByIntent(cfg, s);
    assert AgentForIntent("contractor_search") == Matching;
  }

  /** Without a suggestion and with enough confidence the intent decides. */
  lemma RoutesByIntent(cfg: Settings, s: State)
    requires !s.needsHuman && s.confidence >= cfg.threshold && s.lastHandoff == None
    requires Registered(cfg, AgentForIntent(s.intent))
    ensures DetermineNextAgent(cfg, s) == ToAgent(AgentForIntent(s.intent))
  {
    assert Suggested(s) == "";
    NamedIsRegistered(cfg, "", 0);
  }

  lemma FirstVisitMatches(cfg: Settings, message: string, inputs: seq<Input>)
    requires cfg.threshold <= 0.9 && message != "" && inputs != [] && inputs[0] == SelfSuggesting()
    ensures ConfigAt(cfg, message, inputs, 1).at == Specialist(Matching)
  {
    SelfSuggestingRoutesToMatching(cfg, message);
    assert ConfigAt(cfg, message, inputs, 0) == Initial(message);
  }

  /** Once the router asks the user to clarify, that question is what the run answers with. */
  lemma ClarificationIsTheAnswer(cfg: Settings, c: Config, i: Input, j: Input)
    requires c.at == Router && !c.s.needsHuman && cfg.threshold >= 0.7 && RouterAction(c.s, i.router) != []
    ensures Step(cfg, c, i).at == FinalResponse && Step(cfg, Step(cfg, c, i), j).at == End
    ensures var asked := RouterAction(c.s, i.router)[0].response;
      asked.Given? && Step(cfg, Step(cfg, c, i), j).s.finalResponse == Some(asked.response)
  {
    var s := Merge(c.s, Route(c.s, i.router));
    assert s.actions == c.s.actions + RouterAction(c.s, i.router);
  }

  /** The environment never raises in the router and no specialist suggests the router. */
  ghost predicate Cooperative(inputs: seq<Input>) {
    forall i | i in inputs ::
      !i.router.RouterRaises? && (i.specialist.Acts? ==> Strip(i.specialist.action.suggestedAgent) != "router")
  }

  ghost predicate NoSelfSuggestion(actions: seq<Action>) {
    forall a | a in actions :: Strip(a.suggestedAgent) != "router"
  }

  lemma RouterSuggestsNobody(s: State, reply: RouterReply)
    requires NoSelfSuggestion(s.actions)
    ensures NoSelfSuggestion(Merge(s, Route(s, reply)).actions)
  {
    assert forall a | a in RouterAction(s, reply) :: Strip(a.suggestedAgent) == "";
    assert forall a | a in Merge(s, Route(s, reply)).actions :: a in s.actions || a in RouterAction(s, reply);
  }

  lemma RouterKeepsGoing(cfg: Settings, c: Config, reply: RouterReply)
    requires c.at == Router && NoSelfSuggestion(c.s.actions) && !reply.RouterRaises?
    ensures NoSelfSuggestion(RouterStep(cfg, c, reply).s.actions) && RouterStep(cfg, c, reply).at != Crashed
  {
    RouterSuggestsNobody(c.s, reply);
    var s := Merge(c.s, Route(c.s, reply));
    EdgeMissingIff(cfg, s);
    assert s.lastHandoff.Some? ==> c.s.actions[|c.s.actions| - 1] in c.s.actions;
  }

  lemma StepKeepsGoing(cfg: Settings, c: Config, i: Input)
    requires NoSelfSuggestion(c.s.actions) && c.at != Crashed && Cooperative([i])
    ensures NoSelfSuggestion(Step(cfg, c, i).s.actions) && Step(cfg, c, i).at != Crashed
  {
    assert i in [i];
    if c.at == Router { RouterKeepsGoing(cfg, c, i.router); }
  }

  /** Every conditional edge of every run has a target unless a specialist suggests the router. */
  lemma {:induction false} CooperativeRunsNeverCrash(cfg: Settings, message: string, inputs: seq<Input>)
    requires Cooperative(inputs)
    ensures Run(cfg, Initial(message), inputs).at != Crashed
    ensures NoSelfSuggestion(Run(cfg, Initial(message), inputs).s.actions)
    decreases |inputs|
  {
    if inputs != [] {
      CooperativeRunsNeverCrash(cfg, message, inputs[..|inputs| - 1]);
      StepKeepsGoing(cfg, Run(cfg, Initial(message), inputs[..|inputs| - 1]), inputs[|inputs| - 1]);
    }
  }
}
