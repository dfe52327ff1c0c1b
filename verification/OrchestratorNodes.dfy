/**
 The workflow nodes as they are written: each receives the state as a dictionary, assigns into it
 and hands it back. Every node is proved to return the state the workflow model says it returns.
 */
module OrchestratorNodes {
  import opened Options
  import opened Orchestration

  class AgentState {
    var messages: seq<Message>
    var actions: seq<Action>
    var turnCount: int
    var needsHuman: bool
    var intent: string
    var confidence: real
    var lastHandoff: Option<Handoff>
    var finalResponse: Option<Response>

    ghost function View(): State
      reads this
    {
      State(messages, actions, turnCount, needsHuman, intent, confidence, lastHandoff, finalResponse)
    }
  }

  /** The last user message, scanning the list backwards. */
  method FindLastUserMessage(messages: seq<Message>) returns (content: string)
    ensures content == LastUserMessage(messages)
  {
    var i := |messages|;
    assert messages[..i] == messages;
    while i > 0
      invariant 0 <= i <= |messages| && LastUserMessage(messages[..i]) == LastUserMessage(messages)
    {
      assert messages[..i][..i - 1] == messages[..i - 1];
      if messages[i - 1].role == User {
        return messages[i - 1].content;
      }
      i := i - 1;
    }
    return "";
  }

  /** An action that only asks the user back: with the model's question, or with a text of its own. */
  predicate AsksUser(a: Action, reply: RouterReply) {
    && a.agent == "router" && a.name == "clarification_needed" && !a.requiresFollowup
    && a.summary == "" && a.suggestedAgent == "" && a.response.Given?
    && (reply.Classified? ==> a.response.response == Response("clarification", reply.question))
    && (reply.ParseError? ==> a.response.response.kind == "text")
  }

  /**
   RouterAgent._run_impl, for every answer that does not raise: the intent is one of the router's
   own, the confidence lies in [0, 1], and the only action it ever puts down is one asking the user
   to clarify, in place of the list it was given.
   */
  method RunRouterAgent(st: AgentState, reply: RouterReply)
    modifies st
    ensures st.View() == Classify(old(st.View()), reply)
    ensures !RouterRaisesOn(LastUserMessage(old(st.messages)), reply) ==>
      st.intent in ROUTER_INTENTS && 0.0 <= st.confidence <= 1.0
    ensures st.actions != old(st.actions) ==> |st.actions| == 1 && AsksUser(st.actions[0], reply)
    ensures st.messages == old(st.messages) && st.turnCount == old(st.turnCount)
    ensures st.needsHuman == old(st.needsHuman) && st.lastHandoff == old(st.lastHandoff)
  {
    var userMessage := FindLastUserMessage(st.messages);
    if userMessage == "" {
      st.intent, st.confidence := "general_info", 0.0;
      return;
    }
    match reply {
      case ParseError =>
        st.intent, st.confidence := "general_info", 0.5;
        st.actions := [NOT_UNDERSTOOD];
      case Classified(intent, confidence, question) =>
        st.intent := if intent in ROUTER_INTENTS then intent else "general_info";
        st.confidence := if confidence.None? then 0.5 else Clamp(confidence.value);
        if st.confidence < 0.7 && question != "" {
          st.actions := [Clarification(question)];
        }
      case RouterRaises =>
    }
  }

  /** _route_message without the context and retrieval lookups. */
  method RouteMessage(st: AgentState, reply: RouterReply)
    modifies st
    ensures st.View() == Route(old(st.View()), reply)
  {
    st.turnCount := st.turnCount + 1;
    if st.actions != [] {
      st.lastHandoff := Some(Normalize(st.actions[|st.actions| - 1]));
    } else {
      st.lastHandoff := None;
    }
    RunRouterAgent(st, reply);
  }

  /** The wrapper of a specialist; whatever it had assigned before raising is replaced. */
  method RunAgentSafe(st: AgentState, agent: Agent, reply: SpecialistReply)
    modifies st
    ensures st.View() == RunSafe(old(st.View()), agent, reply)
    ensures |st.actions| == 1
    ensures reply.Acts? ==> st.actions[0] == reply.action && st.needsHuman == (old(st.needsHuman) || reply.escalates)
    ensures reply.Raises? ==>
      && !st.needsHuman && st.actions[0].agent == AgentName(agent) && st.actions[0].name == "agent_error"
      && !st.actions[0].requiresFollowup && st.actions[0].suggestedAgent == ""
      && st.actions[0].response.Given? && st.actions[0].response.response.kind == "text"
      && st.actions[0].summary == "Agent " + AgentName(agent) + " failed: " + reply.error + "."
  {
    match reply {
      case Acts(action, escalates) =>
        st.actions := [action];
        if escalates { st.needsHuman := true; }
      case Raises(error) =>
        st.actions := [ErrorAction(AgentName(agent), error)];
        st.needsHuman := false;
    }
  }

  method HandoffToHuman(st: AgentState, ticket: string)
    modifies st
    ensures st.View() == HandOff(old(st.View()), ticket)
    ensures |st.actions| == 1 && st.actions[0].agent == "orchestrator" && st.actions[0].name == "escalated_to_human"
    ensures st.actions[0].response == Given(Response("handoff", ticket)) && !st.actions[0].requiresFollowup
    ensures st.actions[0].summary == "" && st.actions[0].suggestedAgent == ""
  {
    st.actions := [Escalated(ticket)];
  }

  /** The last action's response is the run's; an explicit null leaves none, a missing one a stock text. */
  method FormatFinalResponse(st: AgentState)
    modifies st
    ensures st.View() == Format(old(st.View()))
    ensures st.actions == old(st.actions)
    ensures st.finalResponse == None <==> st.actions != [] && st.actions[|st.actions| - 1].response == Null
    ensures forall r :: st.actions != [] && st.actions[|st.actions| - 1].response == Given(r) ==>
      st.finalResponse == Some(r)
    ensures (st.actions == [] || st.actions[|st.actions| - 1].response == Absent) ==>
      st.finalResponse.Some? && st.finalResponse.value.kind == (if st.needsHuman then "handoff" else "text")
    ensures st.actions != [] && st.actions[|st.actions| - 1].response == Absent && !st.needsHuman ==>
      st.finalResponse == Some(Response("text", ""))
    ensures st.actions == [] ==> st.finalResponse.value.message != ""
  {
    if st.needsHuman {
      var entry := if st.actions != [] then st.actions[|st.actions| - 1].response else Absent;
      st.finalResponse := EntryOr(entry, PLEASE_WAIT);
    } else if st.actions != [] {
      st.finalResponse := EntryOr(st.actions[|st.actions| - 1].response, NO_TEXT);
    } else {
      st.finalResponse := Some(COULD_NOT_PROCESS);
    }
  }
}
