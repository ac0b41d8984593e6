/**
  The agent's tool loop: a bounded conversation with an arbitrary provider and arbitrary tools,
  which grows a transcript and emits an event for everything it appends.
 */
module AgentRuntime {
  import opened Wrappers

  datatype Role = System | User | Assistant | Tool
  datatype ToolCall = ToolCall(id: string, name: string, arguments: string)
  datatype Message = Message(role: Role, content: Option<string>, toolCalls: Option<seq<ToolCall>>, toolCallId: Option<string>)
  datatype Reply = Reply(content: Option<string>, toolCalls: Option<seq<ToolCall>>)

  datatype AgentError = ProviderError(text: string) | ToolError(text: string) | SandboxError(text: string)
                      | ConfigError(text: string) | Unknown(text: string)
  datatype AgentEvent = Thought(text: string) | ToolCalled(call: ToolCall) | ToolResult(id: string, result: string)
                      | Answer(text: string)
  type Event = Result<AgentEvent, AgentError>

  // Provider and tools may answer anything at all; the number they are given (of the provider
  // call, of the transcript position) lets equal requests be answered differently. jsonError is the
  // parser's complaint about an argument text that is not JSON.
  datatype Agent = Agent(provider: (nat, seq<Message>) -> Result<Reply, AgentError>,
                         tools: map<string, (nat, string) -> Result<string, AgentError>>,
                         jsonError: string -> Option<string>,
                         systemPrompt: string)

  const MAX_ITERATIONS := 10

  function Display(e: AgentError): string {
    match e
    case ProviderError(t) => "Provider error: " + t
    case ToolError(t) => "Tool execution error: " + t
    case SandboxError(t) => "Sandbox error: " + t
    case ConfigError(t) => "Configuration error: " + t
    case Unknown(t) => "Unknown error: " + t
  }

  function ExecuteTool(agent: Agent, at: nat, call: ToolCall): Result<string, AgentError> {
    if call.name !in agent.tools then Err(ToolError("Tool not found: " + call.name))
    else if agent.jsonError(call.arguments).Some? then
      Err(ToolError("Invalid JSON args: " + agent.jsonError(call.arguments).value))
    else agent.tools[call.name](at, call.arguments)
  }

  // What the model is told about a call, failed or not.
  function ToolText(agent: Agent, at: nat, call: ToolCall): string {
    match ExecuteTool(agent, at, call)
    case Ok(text) => text
    case Err(e) => "Error: " + Display(e)
  }

  // What the text of a tool message must say: the tool's output if a registered tool was given JSON and
  // succeeded, otherwise which of the three things went wrong, and how.
  predicate Reports(agent: Agent, at: nat, call: ToolCall, text: string) {
    if call.name !in agent.tools then Complains(text, "Tool execution error: ", "Tool not found: " + call.name)
    else match agent.jsonError(call.arguments)
      case Some(complaint) => Complains(text, "Tool execution error: ", "Invalid JSON args: " + complaint)
      case None =>
        match agent.tools[call.name](at, call.arguments)
        case Ok(output) => text == output
        case Err(ProviderError(e)) => Complains(text, "Provider error: ", e)
        case Err(ToolError(e)) => Complains(text, "Tool execution error: ", e)
        case Err(SandboxError(e)) => Complains(text, "Sandbox error: ", e)
        case Err(ConfigError(e)) => Complains(text, "Configuration error: ", e)
        case Err(Unknown(e)) => Complains(text, "Unknown error: ", e)
  }

  predicate Complains(text: string, kind: string, about: string) {
    text == "Error: " + (kind + about)
  }

  // The message about a call: a tool message with the call's id whose text reports what came of it.
  predicate ToolAnswer(agent: Agent, at: nat, call: ToolCall, m: Message) {
    m.role == Tool && m.toolCalls == None && m.toolCallId == Some(call.id)
    && m.content.Some? && Reports(agent, at, call, m.content.value)
  }

  lemma ToolTextReports(agent: Agent, at: nat, call: ToolCall)
    ensures ToolAnswer(agent, at, call, ToolMessage(call, ToolText(agent, at, call)))
  {
  }

  function UserMessage(input: string): Message { Message(User, Some(input), None, None) }

  function ToolMessage(call: ToolCall, text: string): Message { Message(Tool, Some(text), None, Some(call.id)) }

  function AssistantMessage(r: Reply): Message { Message(Assistant, r.content, r.toolCalls, None) }

  // The transcript the first provider call sees.
  function Opening(agent: Agent, history: seq<Message>, input: string): seq<Message> {
    (if agent.systemPrompt == "" || (history != [] && history[0].role == System) then history
     else [Message(System, Some(agent.systemPrompt), None, None)] + history) + [UserMessage(input)]
  }

  // The input comes last, the history before it is whole, and with a system prompt configured a system
  // message leads: the history's own, or else the configured one.
  predicate Opens(agent: Agent, history: seq<Message>, input: string, start: seq<Message>) {
    && start != [] && start[|start| - 1] == Message(User, Some(input), None, None)
    && var front := start[..|start| - 1];
       if agent.systemPrompt == "" then front == history
       else
         && front != [] && front[0].role == System
         && (front == history
             || (front[1..] == history && front[0] == Message(System, Some(agent.systemPrompt), None, None)
                 && (history == [] || history[0].role != System)))
  }

  // Opening is the one transcript of that form.
  lemma OpeningExact(agent: Agent, history: seq<Message>, input: string, start: seq<Message>)
    ensures Opens(agent, history, input, start) <==> start == Opening(agent, history, input)
  {
    var system := Message(System, Some(agent.systemPrompt), None, None);
    var opening := Opening(agent, history, input);
    assert opening[..|opening| - 1] == if agent.systemPrompt == "" || (history != [] && history[0].role == System)
                                       then history else [system] + history;
    assert ([system] + history)[1..] == history;
    if Opens(agent, history, input, start) {
      var front := start[..|start| - 1];
      assert start == front + [start[|start| - 1]];
      if front != history { assert front == [front[0]] + front[1..]; }
    }
  }

  function Calls(m: Message): seq<ToolCall> {
    if m.toolCalls.Some? then m.toolCalls.value else []
  }

  // ---- The transcript protocol ----------------------------------------------------------------

  predicate Answers(m: Message, call: ToolCall) {
    m.role == Tool && m.content.Some? && m.toolCalls == None && m.toolCallId == Some(call.id)
  }

  // An assistant message and the answers to its calls, in order.
  predicate IsRound(m: Message, results: seq<Message>) {
    && m.role == Assistant && m.toolCallId == None && |results| == |Calls(m)|
    && forall i {:trigger results[i]} :: 0 <= i < |results| ==> Answers(results[i], Calls(m)[i])
  }

  predicate Complete(ms: seq<Message>) {
    ms != [] && |Calls(ms[0])| < |ms|
  }

  function Results(ms: seq<Message>): seq<Message>
    requires Complete(ms)
  {
    ms[1..1 + |Calls(ms[0])|]
  }

  function Later(ms: seq<Message>): (rest: seq<Message>)
    requires Complete(ms)
    ensures |rest| < |ms|
  {
    ms[1 + |Calls(ms[0])|..]
  }

  // Rounds: an assistant message with k calls, then exactly k tool messages with their ids.
  predicate Protocol(ms: seq<Message>)
    decreases |ms|
  {
    ms == [] || (Complete(ms) && IsRound(ms[0], Results(ms)) && Protocol(Later(ms)))
  }

  // The events of an assistant message's text, and of its calls with their results.
  function TextEvents(m: Message): seq<Event> {
    if m.content.None? then []
    else if Calls(m) == [] then [Ok(Answer(m.content.value))]
    else [Ok(Thought(m.content.value))]
  }

  function TextOf(m: Message): string {
    if m.content.Some? then m.content.value else ""
  }

  function CallEvents(calls: seq<ToolCall>, results: seq<Message>): seq<Event>
    requires |calls| == |results|
  {
    if calls == [] then []
    else
      var n := |calls| - 1;
      CallEvents(calls[..n], results[..n])
      + [Ok(ToolCalled(calls[n])), Ok(ToolResult(calls[n].id, TextOf(results[n])))]
  }

  function RoundEvents(m: Message, results: seq<Message>): seq<Event>
    requires IsRound(m, results)
  {
    TextEvents(m) + CallEvents(Calls(m), results)
  }

  // The event log as a function of the appended messages.
  function EventLog(ms: seq<Message>): seq<Event>
    requires Protocol(ms)
    decreases |ms|
  {
    if ms == [] then [] else RoundEvents(ms[0], Results(ms)) + EventLog(Later(ms))
  }

  lemma HeadOfConcat(a: seq<Message>, b: seq<Message>)
    requires Complete(a)
    ensures Complete(a + b) && (a + b)[0] == a[0] && Results(a + b) == Results(a) && Later(a + b) == Later(a) + b
  {
  }

  lemma {:induction false} ProtocolConcat(a: seq<Message>, b: seq<Message>)
    requires Protocol(a) && Protocol(b)
    ensures Protocol(a + b)
    decreases |a|
  {
    if a == [] {
      assert a + b == b;
    } else {
      HeadOfConcat(a, b);
      ProtocolConcat(Later(a), b);
    }
  }

  lemma {:induction false} LogConcat(a: seq<Message>, b: seq<Message>)
    requires Protocol(a) && Protocol(b) && Protocol(a + b)
    ensures EventLog(a + b) == EventLog(a) + EventLog(b)
    decreases |a|
  {
    if a == [] {
      assert a + b == b;
    } else {
      HeadOfConcat(a, b);
      LogConcat(Later(a), b);
      Regroup(RoundEvents(a[0], Results(a)), EventLog(Later(a)), EventLog(b));
    }
  }

  lemma Regroup<T>(x: seq<T>, y: seq<T>, z: seq<T>)
    ensures x + (y + z) == x + y + z
  {
  }

  lemma OneRound(m: Message, results: seq<Message>)
    requires IsRound(m, results)
    ensures Protocol([m] + results) && EventLog([m] + results) == RoundEvents(m, results)
  {
    var ms := [m] + results;
    assert Results(ms) == results && Later(ms) == [];
  }

  // Each call's event is followed by the event of its result, in the order of the calls.
  lemma {:induction false} CallEventsAt(calls: seq<ToolCall>, results: seq<Message>, j: nat)
    requires |calls| == |results| && j < |calls|
    ensures |CallEvents(calls, results)| == 2 * |calls|
    ensures CallEvents(calls, results)[2 * j] == Ok(ToolCalled(calls[j]))
    ensures CallEvents(calls, results)[2 * j + 1] == Ok(ToolResult(calls[j].id, TextOf(results[j])))
  {
    var n := |calls| - 1;
    if j < n {
      CallEventsAt(calls[..n], results[..n], j);
    } else if n > 0 {
      CallEventsAt(calls[..n], results[..n], 0);
    }
  }

  // In the log of a round its text comes first, as a thought if tools are called and as the answer if
  // not; then the calls with their results.
  lemma RoundLog(m: Message, results: seq<Message>, j: nat)
    requires IsRound(m, results)
    ensures var log, shift := EventLog([m] + results), if m.content.Some? then 1 else 0;
            && |log| == shift + 2 * |results|
            && (m.content.Some? ==> log[0] == Ok(if results == [] then Answer(m.content.value) else Thought(m.content.value)))
            && (j < |results| ==>
                  && log[shift + 2 * j] == Ok(ToolCalled(Calls(m)[j]))
                  && log[shift + 2 * j + 1] == Ok(ToolResult(Calls(m)[j].id, TextOf(results[j]))))
  {
    OneRound(m, results);
    if results != [] {
      CallEventsAt(Calls(m), results, 0);
      if j < |results| { CallEventsAt(Calls(m), results, j); }
    }
  }

  // ---- The loop ----------------------------------------------------------------------------------

  predicate Terminal(e: Event) {
    e.Err? || e.value.Answer?
  }

  // Exactly one terminal event, the last.
  predicate EndsOnce(events: seq<Event>) {
    events != [] && Terminal(events[|events| - 1]) && forall e :: e in events[..|events| - 1] ==> !Terminal(e)
  }

  // A reply with a text and no calls ends the turn.
  predicate Final(r: Reply) {
    r.content.Some? && (r.toolCalls.None? || r.toolCalls.value == [])
  }

  // The messages that follow provider call i in the transcript.
  ghost predicate Follows(agent: Agent, messages: seq<Message>, prompt: seq<Message>, i: nat) {
    && agent.provider(i, prompt).Ok?
    && var m := AssistantMessage(agent.provider(i, prompt).value);
    && prompt + [m] <= messages && |prompt| + |Calls(m)| < |messages|
    && forall j {:trigger Calls(m)[j]} :: 0 <= j < |Calls(m)| ==>
         var at := |prompt| + 1 + j;
         ToolAnswer(agent, at, Calls(m)[j], messages[at])
  }

  // The transcripts the provider saw: each extends the one before by that call's round.
  ghost predicate Conversation(agent: Agent, start: seq<Message>, prompts: seq<seq<Message>>, messages: seq<Message>) {
    && (forall i {:trigger prompts[i]} :: 0 <= i < |prompts| ==> prompts[i] <= messages)
    && (forall i, j {:trigger prompts[i], prompts[j]} :: 0 <= i < j < |prompts| ==> prompts[i] < prompts[j])
    && (prompts != [] ==> prompts[0] == start)
  }

  // How a turn ends: with the provider's error, its answer, or for want of iterations.
  ghost predicate Ending(agent: Agent, prompts: seq<seq<Message>>, last: Event) {
    prompts != [] &&
    var n := |prompts| - 1;
    match agent.provider(n, prompts[n])
    case Err(e) => last == Err(e)
    case Ok(r) =>
      if Final(r) then last == Ok(Answer(r.content.value))
      else |prompts| == 10 && last == Err(Unknown("Max iterations reached"))
  }

  // events is the log of the turn, followed by the error that ended it if one did.
  predicate Emitted(turn: seq<Message>, events: seq<Event>)
    requires Protocol(turn)
  {
    events == EventLog(turn) ||
    (events != [] && events[|events| - 1].Err? && events[..|events| - 1] == EventLog(turn))
  }

  method RunTools(agent: Agent, calls: seq<ToolCall>, before: nat) returns (results: seq<Message>, log: seq<Event>)
    ensures |results| == |calls| && log == CallEvents(calls, results)
    ensures forall j {:trigger results[j]} :: 0 <= j < |calls| ==> ToolAnswer(agent, before + j, calls[j], results[j])
  {
    results, log := [], [];
    assert calls[..0] == [];
    for i := 0 to |calls|
      invariant ToolsRun(agent, calls, before, i, results, log)
    {
      var call := calls[i];
      var text := ToolText(agent, before + i, call);
      NextToolRun(agent, calls, before, i, results, log, ToolMessage(call, text));
      log := log + [Ok(ToolCalled(call)), Ok(ToolResult(call.id, text))];
      results := results + [ToolMessage(call, text)];
    }
    assert calls[..|calls|] == calls;
    forall j | 0 <= j < |calls| ensures ToolAnswer(agent, before + j, calls[j], results[j]) {
      ToolTextReports(agent, before + j, calls[j]);
    }
  }

  ghost predicate ToolsRun(agent: Agent, calls: seq<ToolCall>, before: nat, i: nat, results: seq<Message>, log: seq<Event>) {
    && i <= |calls| && |results| == i && log == CallEvents(calls[..i], results)
    && forall j {:trigger results[j]} :: 0 <= j < i ==> results[j] == ToolMessage(calls[j], ToolText(agent, before + j, calls[j]))
  }

  lemma NextToolRun(agent: Agent, calls: seq<ToolCall>, before: nat, i: nat, results: seq<Message>, log: seq<Event>,
                    m: Message)
    requires i < |calls| && ToolsRun(agent, calls, before, i, results, log)
    requires m == ToolMessage(calls[i], ToolText(agent, before + i, calls[i]))
    ensures ToolsRun(agent, calls, before, i + 1, results + [m],
                     log + [Ok(ToolCalled(calls[i])), Ok(ToolResult(calls[i].id, TextOf(m)))])
  {
    NextCallEvents(calls, results, i, m);
    forall j | 0 <= j < i ensures (results + [m])[j] == ToolMessage(calls[j], ToolText(agent, before + j, calls[j])) {
      assert (results + [m])[j] == results[j];
    }
  }

  lemma NextCallEvents(calls: seq<ToolCall>, results: seq<Message>, i: nat, m: Message)
    requires i < |calls| && |results| == i
    ensures CallEvents(calls[..i + 1], results + [m])
            == CallEvents(calls[..i], results) + [Ok(ToolCalled(calls[i])), Ok(ToolResult(calls[i].id, TextOf(m)))]
  {
    assert calls[..i + 1][..i] == calls[..i] && (results + [m])[..i] == results;
  }

  lemma {:induction false} CallEventsQuiet(calls: seq<ToolCall>, results: seq<Message>)
    requires |calls| == |results|
    ensures Quiet(CallEvents(calls, results))
  {
    if calls != [] { CallEventsQuiet(calls[..|calls| - 1], results[..|calls| - 1]); }
  }

  ghost predicate Quiet(events: seq<Event>) {
    forall e :: e in events ==> !Terminal(e)
  }

  // One pass of the loop: the provider's reply, its tool calls, and the messages to append.
  method Iterate(agent: Agent, n: nat, messages: seq<Message>)
    returns (reply: Result<Reply, AgentError>, round: seq<Message>, log: seq<Event>)
    ensures reply == agent.provider(n, messages)
    ensures reply.Ok? ==> round != [] && Protocol(round) && log == EventLog(round) && Follows(agent, messages + round, messages, n)
    ensures reply.Ok? && !Final(reply.value) ==> Quiet(log)
    ensures reply.Ok? && Final(reply.value) ==> log == [Ok(Answer(reply.value.content.value))]
  {
    round, log := [], [];
    reply := agent.provider(n, messages);
    if reply.Ok? {
      var assistant := AssistantMessage(reply.value);
      var results, calls := RunTools(agent, Calls(assistant), |messages| + 1);
      round := [assistant] + results;
      log := TextEvents(assistant) + calls;
      RoundDone(reply.value, results);
      RoundFollows(agent, messages, n, results);
    }
  }

  // A reply and its tool messages form a round; its log is quiet unless the reply is final.
  lemma RoundDone(reply: Reply, results: seq<Message>)
    requires IsRound(AssistantMessage(reply), results)
    ensures var m := AssistantMessage(reply);
            var log := TextEvents(m) + CallEvents(Calls(m), results);
            && Protocol([m] + results) && log == EventLog([m] + results)
            && (!Final(reply) ==> Quiet(log))
            && (Final(reply) ==> log == [Ok(Answer(reply.content.value))])
  {
    OneRound(AssistantMessage(reply), results);
    CallEventsQuiet(Calls(AssistantMessage(reply)), results);
  }

  lemma RoundFollows(agent: Agent, messages: seq<Message>, n: nat, results: seq<Message>)
    requires agent.provider(n, messages).Ok?
    requires var m := AssistantMessage(agent.provider(n, messages).value);
             |results| == |Calls(m)| && forall j {:trigger results[j]} :: 0 <= j < |results| ==>
               ToolAnswer(agent, |messages| + 1 + j, Calls(m)[j], results[j])
    ensures Follows(agent, messages + ([AssistantMessage(agent.provider(n, messages).value)] + results), messages, n)
  {
    var m := AssistantMessage(agent.provider(n, messages).value);
    var all := messages + ([m] + results);
    assert all == messages + [m] + results;
    forall j | 0 <= j < |Calls(m)| ensures ToolAnswer(agent, |messages| + 1 + j, Calls(m)[j], all[|messages| + 1 + j]) {
      assert all[|messages| + 1 + j] == results[j];
    }
  }

  // Every prompt so far was answered, by a reply that did not end the turn.
  ghost predicate Answered(agent: Agent, prompts: seq<seq<Message>>, messages: seq<Message>) {
    forall i {:trigger prompts[i]} :: 0 <= i < |prompts| ==>
      Follows(agent, messages, prompts[i], i) && prompts[i] < messages && !Final(agent.provider(i, prompts[i]).value)
  }

  ghost predicate Logged(turn: seq<Message>, events: seq<Event>) {
    Protocol(turn) && events == EventLog(turn) && Quiet(events)
  }

  // The loop after some passes, none of them final.
  ghost predicate UnderWay(agent: Agent, start: seq<Message>, turn: seq<Message>, prompts: seq<seq<Message>>, events: seq<Event>) {
    && Conversation(agent, start, prompts, start + turn)
    && Answered(agent, prompts, start + turn)
    && (prompts == [] ==> turn == [])
    && Logged(turn, events)
  }

  // Every provider call but a failing last one is followed by its round.
  ghost predicate Heard(agent: Agent, messages: seq<Message>, prompts: seq<seq<Message>>) {
    forall i {:trigger prompts[i]} :: 0 <= i < |prompts| ==>
      if agent.provider(i, prompts[i]).Ok? then Follows(agent, messages, prompts[i], i) else i == |prompts| - 1
  }

  ghost predicate Told(turn: seq<Message>, events: seq<Event>) {
    Protocol(turn) && Emitted(turn, events) && EndsOnce(events)
  }

  // What a finished call of chat promises.
  ghost predicate Finished(agent: Agent, start: seq<Message>, messages: seq<Message>, events: seq<Event>, prompts: seq<seq<Message>>) {
    && start <= messages
    && 1 <= |prompts| <= 10 && Conversation(agent, start, prompts, messages)
    && Heard(agent, messages, prompts)
    && Told(messages[|start|..], events) && Ending(agent, prompts, events[|events| - 1])
  }

  method Open(agent: Agent, input: string, history: seq<Message>) returns (messages: seq<Message>)
    ensures messages == Opening(agent, history, input)
  {
    messages := history;
    if agent.systemPrompt != "" {
      var hasSystem := messages != [] && messages[0].role == System;
      if !hasSystem { messages := [Message(System, Some(agent.systemPrompt), None, None)] + messages; }
    }
    messages := messages + [UserMessage(input)];
  }

  // AgentRuntime::chat for every provider and every set of tools.
  method Chat(agent: Agent, input: string, history: seq<Message>)
    returns (messages: seq<Message>, events: seq<Event>, prompts: seq<seq<Message>>)
    ensures Finished(agent, Opening(agent, history, input), messages, events, prompts)
  {
    messages := Open(agent, input, history);
    messages, events, prompts := Loop(agent, messages);
  }

  method Loop(agent: Agent, start: seq<Message>)
    returns (messages: seq<Message>, events: seq<Event>, prompts: seq<seq<Message>>)
    ensures Finished(agent, start, messages, events, prompts)
  {
    messages, events, prompts := start, [], [];
    ghost var turn: seq<Message> := [];
    var iteration: nat := 0;
    assert start + [] == start;
    while true
      invariant iteration == |prompts| <= MAX_ITERATIONS && messages == start + turn
      invariant UnderWay(agent, start, turn, prompts, events)
      decreases MAX_ITERATIONS - iteration
    {
      if iteration >= MAX_ITERATIONS {
        Exhausted(agent, start, turn, prompts, events);
        events := events + [Err(Unknown("Max iterations reached"))];
        return;
      }
      iteration := iteration + 1;
      var done, round, log := Pass(agent, start, messages, events, prompts, turn);
      prompts, messages, events := prompts + [messages], messages + round, events + log;
      turn := turn + round;
      if done { return; }
    }
  }

  // One pass, and whether it ends the turn.
  method Pass(agent: Agent, ghost start: seq<Message>, messages: seq<Message>, events: seq<Event>,
              prompts: seq<seq<Message>>, ghost turn: seq<Message>)
    returns (done: bool, round: seq<Message>, log: seq<Event>)
    requires messages == start + turn && |prompts| < MAX_ITERATIONS && UnderWay(agent, start, turn, prompts, events)
    ensures messages + round == start + (turn + round)
    ensures done ==> Finished(agent, start, messages + round, events + log, prompts + [messages])
    ensures !done ==> UnderWay(agent, start, turn + round, prompts + [messages], events + log)
  {
    var reply;
    reply, round, log := Iterate(agent, |prompts|, messages);
    Regroup(start, turn, round);
    if reply.Err? {
      Failed(agent, start, turn, prompts, events);
      assert messages + [] == messages;
      return true, [], [Err(reply.error)];
    }
    done := Final(reply.value);
    if done {
      Concluded(agent, start, turn, prompts, events, round, log);
    } else {
      Advance(agent, start, turn, prompts, events, round, log);
    }
  }

  // What followed earlier calls still follows them in a longer transcript.
  lemma Continued(agent: Agent, before: seq<Message>, after: seq<Message>, prompt: seq<Message>, i: nat)
    requires before <= after && Follows(agent, before, prompt, i)
    ensures Follows(agent, after, prompt, i)
  {
  }

  lemma TurnOf(start: seq<Message>, turn: seq<Message>)
    ensures (start + turn)[|start|..] == turn
  {
  }

  lemma Exhausted(agent: Agent, start: seq<Message>, turn: seq<Message>, prompts: seq<seq<Message>>, events: seq<Event>)
    requires UnderWay(agent, start, turn, prompts, events) && |prompts| == MAX_ITERATIONS
    ensures Finished(agent, start, start + turn, events + [Err(Unknown("Max iterations reached"))], prompts)
  {
    TurnOf(start, turn);
    var n := |prompts| - 1;
    assert Follows(agent, start + turn, prompts[n], n);
    FailedTold(turn, events, Unknown("Max iterations reached"));
  }

  lemma Failed(agent: Agent, start: seq<Message>, turn: seq<Message>, prompts: seq<seq<Message>>, events: seq<Event>)
    requires UnderWay(agent, start, turn, prompts, events) && |prompts| < MAX_ITERATIONS
    requires agent.provider(|prompts|, start + turn).Err?
    ensures Finished(agent, start, start + turn, events + [Err(agent.provider(|prompts|, start + turn).error)],
                     prompts + [start + turn])
  {
    TurnOf(start, turn);
    assert start + turn + [] == start + turn;
    Asked(agent, start, turn, prompts, events, []);
    FailedHeard(agent, start + turn, prompts);
    FailedTold(turn, events, agent.provider(|prompts|, start + turn).error);
  }

  lemma FailedHeard(agent: Agent, messages: seq<Message>, prompts: seq<seq<Message>>)
    requires Answered(agent, prompts, messages) && agent.provider(|prompts|, messages).Err?
    ensures Heard(agent, messages, prompts + [messages])
  {
    var asked := prompts + [messages];
    forall i {:trigger asked[i]} | 0 <= i < |prompts|
      ensures agent.provider(i, asked[i]).Ok? && Follows(agent, messages, asked[i], i)
    {
      assert asked[i] == prompts[i];
    }
  }

  lemma FailedTold(turn: seq<Message>, events: seq<Event>, e: AgentError)
    requires Logged(turn, events)
    ensures Told(turn, events + [Err(e)]) && (events + [Err(e)])[|events|] == Err(e)
  {
    LastEvent(events, [Err(e)]);
    assert (events + [Err(e)])[..|events|] == events;
  }

  // One more prompt keeps the prompts a chain of extensions.
  lemma Asked(agent: Agent, start: seq<Message>, turn: seq<Message>, prompts: seq<seq<Message>>, events: seq<Event>, round: seq<Message>)
    requires UnderWay(agent, start, turn, prompts, events)
    ensures Conversation(agent, start, prompts + [start + turn], start + turn + round)
  {
    var asked := prompts + [start + turn];
    forall i {:trigger asked[i]} | 0 <= i < |prompts| ensures asked[i] < start + turn { assert asked[i] == prompts[i]; }
    forall i, j {:trigger asked[i], asked[j]} | 0 <= i < j < |prompts| ensures asked[i] < asked[j] {
      assert asked[i] == prompts[i] && asked[j] == prompts[j];
    }
  }

  lemma Advance(agent: Agent, start: seq<Message>, turn: seq<Message>, prompts: seq<seq<Message>>, events: seq<Event>,
                round: seq<Message>, log: seq<Event>)
    requires UnderWay(agent, start, turn, prompts, events)
    requires Follows(agent, start + turn + round, start + turn, |prompts|) && !Final(agent.provider(|prompts|, start + turn).value)
    requires round != [] && Protocol(round) && log == EventLog(round) && Quiet(log)
    ensures UnderWay(agent, start, turn + round, prompts + [start + turn], events + log)
  {
    LogNext(turn, events, round, log);
    Regroup(start, turn, round);
    Asked(agent, start, turn, prompts, events, round);
    StillFollow(agent, start, turn, prompts, events, round);
  }

  lemma LogNext(turn: seq<Message>, events: seq<Event>, round: seq<Message>, log: seq<Event>)
    requires Logged(turn, events) && Logged(round, log)
    ensures Logged(turn + round, events + log)
  {
    ProtocolConcat(turn, round);
    LogConcat(turn, round);
  }

  lemma Concluded(agent: Agent, start: seq<Message>, turn: seq<Message>, prompts: seq<seq<Message>>, events: seq<Event>,
                  round: seq<Message>, log: seq<Event>)
    requires UnderWay(agent, start, turn, prompts, events) && |prompts| < MAX_ITERATIONS
    requires Follows(agent, start + turn + round, start + turn, |prompts|) && Final(agent.provider(|prompts|, start + turn).value)
    requires round != [] && Protocol(round) && log == EventLog(round)
    requires log == [Ok(Answer(agent.provider(|prompts|, start + turn).value.content.value))]
    ensures Finished(agent, start, start + (turn + round), events + log, prompts + [start + turn])
  {
    Regroup(start, turn, round);
    TurnOf(start, turn + round);
    Asked(agent, start, turn, prompts, events, round);
    StillFollow(agent, start, turn, prompts, events, round);
    ConcludedTold(turn, events, round, log);
  }

  lemma ConcludedTold(turn: seq<Message>, events: seq<Event>, round: seq<Message>, log: seq<Event>)
    requires Logged(turn, events) && Protocol(round) && log == EventLog(round) && |log| == 1 && Terminal(log[0])
    ensures Told(turn + round, events + log) && (events + log)[|events + log| - 1] == log[0]
  {
    ProtocolConcat(turn, round);
    LogConcat(turn, round);
    LastEvent(events, log);
  }

  lemma LastEvent(events: seq<Event>, log: seq<Event>)
    requires Quiet(events) && |log| == 1 && Terminal(log[0])
    ensures EndsOnce(events + log) && (events + log)[|events + log| - 1] == log[0]
  {
    assert (events + log)[..|events|] == events;
  }

  lemma StillFollow(agent: Agent, start: seq<Message>, turn: seq<Message>, prompts: seq<seq<Message>>, events: seq<Event>,
                    round: seq<Message>)
    requires Answered(agent, prompts, start + turn) && round != []
    requires Follows(agent, start + turn + round, start + turn, |prompts|)
    ensures forall i {:trigger (prompts + [start + turn])[i]} :: 0 <= i <= |prompts| ==>
              Follows(agent, start + turn + round, (prompts + [start + turn])[i], i)
    ensures !Final(agent.provider(|prompts|, start + turn).value) ==>
              Answered(agent, prompts + [start + turn], start + turn + round)
  {
    var asked := prompts + [start + turn];
    forall i {:trigger asked[i]} | 0 <= i < |prompts|
      ensures Follows(agent, start + turn + round, asked[i], i) && asked[i] < start + turn + round
      ensures !Final(agent.provider(i, asked[i]).value)
    {
      assert asked[i] == prompts[i];
      Continued(agent, start + turn, start + turn + round, prompts[i], i);
    }
  }
}
