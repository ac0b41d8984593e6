/**
  A chat session's rows: events become rows as they are emitted, and the most recent rows become
  the history of the next turn.
 */
module AgentSession {
  import opened Wrappers
  import opened AgentRuntime

  // The JSON column tool_calls: the calls of an assistant row, or the id a tool row answers.
  datatype Json = CallList(calls: seq<ToolCall>) | CallRef(id: string)
  datatype Row = Row(role: string, content: string, toolCalls: Option<Json>)

  const WINDOW := 50

  function UserRow(input: string): Row { Row("user", input, None) }

  // ---- Event to row, row to message -------------------------------------------------------------

  function RowsOfEvent(e: Event): seq<Row> {
    match e
    case Err(_) => []
    case Ok(Thought(text)) => [Row("assistant", text, None)]
    case Ok(ToolCalled(call)) => [Row("assistant", "", Some(CallList([call])))]
    case Ok(ToolResult(id, result)) => [Row("tool", result, Some(CallRef(id)))]
    case Ok(Answer(text)) => [Row("assistant", text, None)]
  }

  function RowsOf(events: seq<Event>): seq<Row> {
    if events == [] then [] else RowsOf(events[..|events| - 1]) + RowsOfEvent(events[|events| - 1])
  }

  function RoleOf(role: string): Role {
    if role == "assistant" then Assistant
    else if role == "system" then System
    else if role == "tool" then Tool
    else User
  }

  function Rehydrate(row: Row): Message {
    Message(RoleOf(row.role), Some(row.content),
            if row.role == "tool" || row.toolCalls.None? then None
            else Some(if row.toolCalls.value.CallList? then row.toolCalls.value.calls else []),
            if row.role == "tool" && row.toolCalls.Some? && row.toolCalls.value.CallRef? then Some(row.toolCalls.value.id)
            else None)
  }

  function RehydrateAll(rows: seq<Row>): seq<Message> {
    seq(|rows|, i requires 0 <= i < |rows| => Rehydrate(rows[i]))
  }

  // ---- The flattened transcript --------------------------------------------------------------------

  // A call of its own and its answer.
  function CallPair(call: ToolCall, text: string): seq<Message> {
    [Message(Assistant, Some(""), Some([call]), None), ToolMessage(call, text)]
  }

  function CallPairs(calls: seq<ToolCall>, results: seq<Message>): seq<Message>
    requires |calls| == |results|
  {
    if calls == [] then []
    else
      var n := |calls| - 1;
      CallPairs(calls[..n], results[..n]) + CallPair(calls[n], TextOf(results[n]))
  }

  function TextMessage(m: Message): seq<Message> {
    if m.content.None? then [] else [Message(Assistant, m.content, None, None)]
  }

  // One call per assistant message; the text of the round comes first.
  function Flatten(ms: seq<Message>): seq<Message>
    requires Protocol(ms)
    decreases |ms|
  {
    if ms == [] then [] else TextMessage(ms[0]) + CallPairs(Calls(ms[0]), Results(ms)) + Flatten(Later(ms))
  }

  // ---- Rows refine the transcript ---------------------------------------------------------------------

  lemma RehydrateConcat(a: seq<Row>, b: seq<Row>)
    ensures RehydrateAll(a + b) == RehydrateAll(a) + RehydrateAll(b)
  {
  }

  lemma {:induction false} RowsConcat(a: seq<Event>, b: seq<Event>)
    ensures RowsOf(a + b) == RowsOf(a) + RowsOf(b)
  {
    if b == [] {
      assert a + b == a;
    } else {
      var n := |b| - 1;
      assert (a + b)[..|a + b| - 1] == a + b[..n];
      RowsConcat(a, b[..n]);
      Regroup(RowsOf(a), RowsOf(b[..n]), RowsOfEvent(b[n]));
    }
  }

  lemma RowsOfPair(call: ToolCall, text: string)
    ensures RehydrateAll(RowsOf([Ok(ToolCalled(call)), Ok(ToolResult(call.id, text))])) == CallPair(call, text)
  {
    var events: seq<Event> := [Ok(ToolCalled(call)), Ok(ToolResult(call.id, text))];
    assert events[..1] == [Ok(ToolCalled(call))] && events[..1][..0] == [];
    assert RowsOf(events[..1]) == RowsOf([]) + RowsOfEvent(Ok(ToolCalled(call)));
    assert RowsOf(events) == [Row("assistant", "", Some(CallList([call]))), Row("tool", text, Some(CallRef(call.id)))];
  }

  lemma {:induction false} RowsOfCalls(calls: seq<ToolCall>, results: seq<Message>)
    requires |calls| == |results|
    ensures RehydrateAll(RowsOf(CallEvents(calls, results))) == CallPairs(calls, results)
  {
    if calls != [] {
      var n := |calls| - 1;
      var before := CallEvents(calls[..n], results[..n]);
      var pair: seq<Event> := [Ok(ToolCalled(calls[n])), Ok(ToolResult(calls[n].id, TextOf(results[n])))];
      RowsOfCalls(calls[..n], results[..n]);
      RowsConcat(before, pair);
      RehydrateConcat(RowsOf(before), RowsOf(pair));
      RowsOfPair(calls[n], TextOf(results[n]));
    }
  }

  lemma RowsOfText(m: Message)
    ensures RehydrateAll(RowsOf(TextEvents(m))) == TextMessage(m)
  {
    if m.content.Some? {
      var e := TextEvents(m)[0];
      assert TextEvents(m) == [e] && [e][..0] == [];
      assert RowsOf([e]) == RowsOf([]) + RowsOfEvent(e) == [Row("assistant", m.content.value, None)];
    }
  }

  // The rows of a turn's events, read back, are its transcript with one call per message.
  lemma {:induction false} PersistRehydrate(ms: seq<Message>)
    requires Protocol(ms)
    ensures RehydrateAll(RowsOf(EventLog(ms))) == Flatten(ms)
    decreases |ms|
  {
    if ms != [] {
      var text, calls, later := TextEvents(ms[0]), CallEvents(Calls(ms[0]), Results(ms)), EventLog(Later(ms));
      RowsConcat(text + calls, later);
      RowsConcat(text, calls);
      RehydrateConcat(RowsOf(text + calls), RowsOf(later));
      RehydrateConcat(RowsOf(text), RowsOf(calls));
      RowsOfText(ms[0]);
      RowsOfCalls(Calls(ms[0]), Results(ms));
      PersistRehydrate(Later(ms));
    }
  }

  // An error ends the turn without a row.
  lemma EmittedRows(turn: seq<Message>, events: seq<Event>)
    requires Protocol(turn) && Emitted(turn, events)
    ensures RowsOf(events) == RowsOf(EventLog(turn))
    ensures RehydrateAll(RowsOf(events)) == Flatten(turn)
  {
    PersistRehydrate(turn);
    if events != EventLog(turn) {
      assert RowsOf(events) == RowsOf(events[..|events| - 1]) + [];
    }
  }

  // ---- What flattening keeps ------------------------------------------------------------------------

  datatype Exchange = Exchange(call: ToolCall, result: string)

  function RoundExchanges(calls: seq<ToolCall>, results: seq<Message>): seq<Exchange>
    requires |calls| == |results|
  {
    seq(|calls|, i requires 0 <= i < |calls| => Exchange(calls[i], TextOf(results[i])))
  }

  // Calls with their results, in order.
  function Exchanges(ms: seq<Message>): seq<Exchange>
    requires Protocol(ms)
    decreases |ms|
  {
    if ms == [] then [] else RoundExchanges(Calls(ms[0]), Results(ms)) + Exchanges(Later(ms))
  }

  lemma ExchangesUnfold(ms: seq<Message>)
    requires Protocol(ms) && ms != []
    ensures Protocol(Later(ms)) && Exchanges(ms) == RoundExchanges(Calls(ms[0]), Results(ms)) + Exchanges(Later(ms))
  {
  }

  lemma ExchangesHead(a: seq<Message>, b: seq<Message>, later: seq<Exchange>)
    requires Protocol(a) && a != [] && Protocol(a + b) && Protocol(Later(a) + b)
    requires Exchanges(Later(a) + b) == Exchanges(Later(a)) + later
    ensures Exchanges(a + b) == Exchanges(a) + later
  {
    HeadOfConcat(a, b);
    ExchangesUnfold(a);
    ExchangesUnfold(a + b);
    Regroup(RoundExchanges(Calls(a[0]), Results(a)), Exchanges(Later(a)), later);
  }

  lemma NoExchangeBefore(a: seq<Message>, b: seq<Message>)
    requires a == [] && Protocol(b)
    ensures Protocol(a + b) && Exchanges(a + b) == Exchanges(a) + Exchanges(b)
  {
    assert a + b == b;
  }

  lemma {:induction false} ExchangesConcat(a: seq<Message>, b: seq<Message>)
    requires Protocol(a) && Protocol(b) && Protocol(a + b)
    ensures Exchanges(a + b) == Exchanges(a) + Exchanges(b)
    decreases |a|
  {
    if a == [] {
      NoExchangeBefore(a, b);
    } else {
      ProtocolConcat(Later(a), b);
      ExchangesConcat(Later(a), b);
      ExchangesHead(a, b, Exchanges(b));
    }
  }

  lemma PairExchange(call: ToolCall, text: string)
    ensures Protocol(CallPair(call, text)) && Exchanges(CallPair(call, text)) == [Exchange(call, text)]
  {
    var ms := CallPair(call, text);
    assert Results(ms) == [ms[1]] && Later(ms) == [];
    assert Calls(ms[0]) == [call];
  }

  lemma OneMorePair(pairs: seq<Message>, call: ToolCall, text: string)
    requires Protocol(pairs)
    ensures var all := pairs + CallPair(call, text); Protocol(all) && Exchanges(all) == Exchanges(pairs) + [Exchange(call, text)]
  {
    PairExchange(call, text);
    ProtocolConcat(pairs, CallPair(call, text));
    ExchangesConcat(pairs, CallPair(call, text));
  }

  lemma {:induction false} PairsExchanges(calls: seq<ToolCall>, results: seq<Message>)
    requires |calls| == |results|
    ensures Protocol(CallPairs(calls, results))
    ensures Exchanges(CallPairs(calls, results)) == RoundExchanges(calls, results)
  {
    if calls != [] {
      var n := |calls| - 1;
      PairsExchanges(calls[..n], results[..n]);
      OneMorePair(CallPairs(calls[..n], results[..n]), calls[n], TextOf(results[n]));
      assert RoundExchanges(calls, results)
             == RoundExchanges(calls[..n], results[..n]) + [Exchange(calls[n], TextOf(results[n]))];
    }
  }

  lemma TextRound(m: Message)
    ensures Protocol(TextMessage(m)) && Exchanges(TextMessage(m)) == []
  {
    if m.content.Some? {
      var ms := TextMessage(m);
      assert Results(ms) == [] && Later(ms) == [];
    }
  }

  // The flattened transcript obeys the protocol, with at most one call a message.
  lemma {:induction false} FlattenKeepsProtocol(ms: seq<Message>)
    requires Protocol(ms)
    ensures Protocol(Flatten(ms)) && forall m :: m in Flatten(ms) ==> |Calls(m)| <= 1
    decreases |ms|
  {
    if ms != [] {
      var text, pairs, later := TextMessage(ms[0]), CallPairs(Calls(ms[0]), Results(ms)), Flatten(Later(ms));
      TextRound(ms[0]);
      PairsExchanges(Calls(ms[0]), Results(ms));
      SingleCalls(Calls(ms[0]), Results(ms));
      FlattenKeepsProtocol(Later(ms));
      ProtocolConcat(text, pairs);
      ProtocolConcat(text + pairs, later);
    }
  }

  lemma RoundFlattened(m: Message, calls: seq<ToolCall>, results: seq<Message>)
    requires |calls| == |results|
    ensures var flat := TextMessage(m) + CallPairs(calls, results);
            Protocol(flat) && Exchanges(flat) == RoundExchanges(calls, results)
  {
    TextRound(m);
    PairsExchanges(calls, results);
    ProtocolConcat(TextMessage(m), CallPairs(calls, results));
    ExchangesConcat(TextMessage(m), CallPairs(calls, results));
  }

  // It holds the same calls with the same results in the same order.
  lemma {:induction false} FlattenKeepsExchanges(ms: seq<Message>)
    requires Protocol(ms) && Protocol(Flatten(ms))
    ensures Exchanges(Flatten(ms)) == Exchanges(ms)
    decreases |ms|
  {
    if ms != [] {
      var flat, later := TextMessage(ms[0]) + CallPairs(Calls(ms[0]), Results(ms)), Flatten(Later(ms));
      RoundFlattened(ms[0], Calls(ms[0]), Results(ms));
      FlattenKeepsProtocol(Later(ms));
      FlattenKeepsExchanges(Later(ms));
      ExchangesConcat(flat, later);
    }
  }

  lemma {:induction false} SingleCalls(calls: seq<ToolCall>, results: seq<Message>)
    requires |calls| == |results|
    ensures forall m :: m in CallPairs(calls, results) ==> |Calls(m)| <= 1
  {
    if calls != [] { SingleCalls(calls[..|calls| - 1], results[..|calls| - 1]); }
  }

  // What the assistant says, in order.
  function Texts(ms: seq<Message>): seq<string> {
    if ms == [] then []
    else
      var m := ms[|ms| - 1];
      Texts(ms[..|ms| - 1]) + if m.role == Assistant && TextOf(m) != "" then [TextOf(m)] else []
  }

  lemma {:induction false} TextsConcat(a: seq<Message>, b: seq<Message>)
    ensures Texts(a + b) == Texts(a) + Texts(b)
  {
    if b == [] {
      assert a + b == a;
    } else {
      var n := |b| - 1;
      assert (a + b)[..|a + b| - 1] == a + b[..n];
      TextsConcat(a, b[..n]);
    }
  }

  lemma {:induction false} NoTexts(ms: seq<Message>)
    requires forall m :: m in ms ==> m.role != Assistant || TextOf(m) == ""
    ensures Texts(ms) == []
  {
    if ms != [] {
      assert ms[|ms| - 1] in ms;
      NoTexts(ms[..|ms| - 1]);
    }
  }

  lemma {:induction false} PairsSilent(calls: seq<ToolCall>, results: seq<Message>)
    requires |calls| == |results|
    ensures forall m :: m in CallPairs(calls, results) ==> m.role != Assistant || TextOf(m) == ""
  {
    if calls != [] { PairsSilent(calls[..|calls| - 1], results[..|calls| - 1]); }
  }

  lemma OneText(m: Message)
    requires m.role == Assistant
    ensures Texts([m]) == Texts(TextMessage(m))
  {
    assert [m][..0] == [] && Texts([m][..0]) == [];
    if m.content.Some? { assert TextMessage(m)[..0] == [] && Texts(TextMessage(m)[..0]) == []; }
  }

  lemma RoundTexts(m: Message, results: seq<Message>)
    requires IsRound(m, results)
    ensures Texts(TextMessage(m) + CallPairs(Calls(m), results)) == Texts([m] + results)
  {
    OneText(m);
    PairsSilent(Calls(m), results);
    NoTexts(CallPairs(Calls(m), results));
    TextsConcat(TextMessage(m), CallPairs(Calls(m), results));
    forall r | r in results ensures r.role != Assistant {
      var i :| 0 <= i < |results| && results[i] == r;
      assert Answers(results[i], Calls(m)[i]);
    }
    NoTexts(results);
    TextsConcat([m], results);
  }

  // And the assistant says the same things in the same order.
  lemma {:induction false} FlattenKeepsTexts(ms: seq<Message>)
    requires Protocol(ms)
    ensures Texts(Flatten(ms)) == Texts(ms)
    decreases |ms|
  {
    if ms != [] {
      var round, later := [ms[0]] + Results(ms), Later(ms);
      assert ms == round + later;
      RoundTexts(ms[0], Results(ms));
      FlattenKeepsTexts(later);
      TextsConcat(round, later);
      TextsConcat(TextMessage(ms[0]) + CallPairs(Calls(ms[0]), Results(ms)), Flatten(later));
    }
  }

  // ---- The window -----------------------------------------------------------------------------------

  // The most recent rows in chronological order.
  function Window(rows: seq<Row>): seq<Row> {
    if |rows| <= WINDOW then rows else rows[|rows| - WINDOW..]
  }

  // A tool row is preceded by the assistant row of the call it answers.
  predicate Paired(rows: seq<Row>, i: nat)
    requires i < |rows|
  {
    rows[i].role == "tool" ==>
      && i > 0 && rows[i - 1].role == "assistant"
      && rows[i - 1].toolCalls.Some? && rows[i - 1].toolCalls.value.CallList?
      && |rows[i - 1].toolCalls.value.calls| == 1
      && rows[i].toolCalls == Some(CallRef(rows[i - 1].toolCalls.value.calls[0].id))
  }

  predicate AllPaired(rows: seq<Row>) {
    forall i {:trigger Paired(rows, i)} :: 0 <= i < |rows| ==> Paired(rows, i)
  }

  // Cutting the front off paired rows leaves them paired exactly when the cut is not between a
  // call and its result.
  lemma CutIsPaired(rows: seq<Row>, n: nat)
    requires AllPaired(rows) && n <= |rows|
    ensures AllPaired(rows[n..]) <==> n == |rows| || rows[n].role != "tool"
  {
    var rest := rows[n..];
    if n < |rows| && rows[n].role == "tool" {
      assert !Paired(rest, 0);
    } else {
      forall i | 0 <= i < |rest| ensures Paired(rest, i) {
        assert Paired(rows, n + i);
        if i > 0 { assert rest[i - 1] == rows[n + i - 1]; }
      }
    }
  }

  lemma PairedConcat(a: seq<Row>, b: seq<Row>)
    requires AllPaired(a) && AllPaired(b)
    ensures AllPaired(a + b)
  {
    forall i | 0 <= i < |a + b| ensures Paired(a + b, i) {
      if i < |a| {
        assert Paired(a, i);
      } else {
        assert Paired(b, i - |a|);
      }
    }
  }

  lemma {:induction false} CallRowsPaired(calls: seq<ToolCall>, results: seq<Message>)
    requires |calls| == |results|
    ensures AllPaired(RowsOf(CallEvents(calls, results)))
  {
    if calls != [] {
      var n := |calls| - 1;
      var before := CallEvents(calls[..n], results[..n]);
      var call, text := calls[n], TextOf(results[n]);
      var pair: seq<Event> := [Ok(ToolCalled(call)), Ok(ToolResult(call.id, text))];
      CallRowsPaired(calls[..n], results[..n]);
      RowsConcat(before, pair);
      assert pair[..1] == [Ok(ToolCalled(call))] && pair[..1][..0] == [];
      assert RowsOf(pair[..1]) == RowsOf([]) + RowsOfEvent(Ok(ToolCalled(call)));
      assert RowsOf(pair) == [Row("assistant", "", Some(CallList([call]))), Row("tool", text, Some(CallRef(call.id)))];
      PairedConcat(RowsOf(before), RowsOf(pair));
    }
  }

  lemma TextRowsPaired(m: Message)
    ensures AllPaired(RowsOf(TextEvents(m)))
  {
    if m.content.Some? {
      var text := TextEvents(m);
      assert text == [text[0]] && text[..0] == [];
      assert RowsOf(text) == RowsOf([]) + RowsOfEvent(text[0]);
    }
  }

  lemma RoundRowsPaired(m: Message, calls: seq<ToolCall>, results: seq<Message>)
    requires |calls| == |results|
    ensures AllPaired(RowsOf(TextEvents(m) + CallEvents(calls, results)))
  {
    RowsConcat(TextEvents(m), CallEvents(calls, results));
    TextRowsPaired(m);
    CallRowsPaired(calls, results);
    PairedConcat(RowsOf(TextEvents(m)), RowsOf(CallEvents(calls, results)));
  }

  lemma JoinedRowsPaired(round: seq<Event>, later: seq<Event>)
    requires AllPaired(RowsOf(round)) && AllPaired(RowsOf(later))
    ensures AllPaired(RowsOf(round + later))
  {
    RowsConcat(round, later);
    PairedConcat(RowsOf(round), RowsOf(later));
  }

  lemma {:induction false} TurnRowsPaired(ms: seq<Message>)
    requires Protocol(ms)
    ensures AllPaired(RowsOf(EventLog(ms)))
    decreases |ms|
  {
    if ms != [] {
      RoundRowsPaired(ms[0], Calls(ms[0]), Results(ms));
      TurnRowsPaired(Later(ms));
      JoinedRowsPaired(TextEvents(ms[0]) + CallEvents(Calls(ms[0]), Results(ms)), EventLog(Later(ms)));
    }
  }

  // The history the next request sees: the window, without the input saved a moment ago.
  function History(rows: seq<Row>, input: string): seq<Message> {
    RehydrateAll(Window(rows + [UserRow(input)])[..|Window(rows + [UserRow(input)])| - 1])
  }

  // It is the tail of the rows there were, one short of the window.
  lemma HistoryIsTail(rows: seq<Row>, input: string)
    ensures History(rows, input) == RehydrateAll(if |rows| < 50 then rows else rows[|rows| - 49..])
  {
    var all := rows + [UserRow(input)];
    assert Window(all)[..|Window(all)| - 1] == if |rows| < WINDOW then rows else rows[|rows| - (WINDOW - 1)..];
  }

  // The same of messages: what a provider demands of a history.
  predicate MessagePaired(ms: seq<Message>, i: nat)
    requires i < |ms|
  {
    ms[i].role == Tool ==>
      && i > 0 && ms[i - 1].role == Assistant && |Calls(ms[i - 1])| == 1
      && ms[i].toolCallId == Some(Calls(ms[i - 1])[0].id)
  }

  predicate MessagesPaired(ms: seq<Message>) {
    forall i {:trigger MessagePaired(ms, i)} :: 0 <= i < |ms| ==> MessagePaired(ms, i)
  }

  lemma RehydratedPaired(rows: seq<Row>)
    ensures MessagesPaired(RehydrateAll(rows)) <==> AllPaired(rows)
  {
    var ms := RehydrateAll(rows);
    forall i: nat {:trigger Paired(rows, i)} {:trigger MessagePaired(ms, i)} | i < |rows| ensures MessagePaired(ms, i) <==> Paired(rows, i) {
      assert ms[i] == Rehydrate(rows[i]);
      if i > 0 { assert ms[i - 1] == Rehydrate(rows[i - 1]); }
    }
  }

  // In the history of the next request every tool message follows its call, exactly when the window
  // does not cut a call from its result.
  lemma HistoryPaired(rows: seq<Row>, input: string)
    requires AllPaired(rows)
    ensures MessagesPaired(History(rows, input))
            <==> |rows| < 50 || rows[|rows| - 49].role != "tool"
  {
    HistoryIsTail(rows, input);
    if |rows| < WINDOW {
      RehydratedPaired(rows);
    } else {
      CutIsPaired(rows, |rows| - (WINDOW - 1));
      RehydratedPaired(rows[|rows| - (WINDOW - 1)..]);
    }
  }

  // While the session fits the window, the next turn starts from everything said before, the
  // last turn flattened.
  lemma NextTurnSees(before: seq<Row>, input: string, turn: seq<Message>, events: seq<Event>, next: string)
    requires Protocol(turn) && Emitted(turn, events)
    requires var rows := before + [UserRow(input)] + RowsOf(events); |rows| < 50
    ensures History(before + [UserRow(input)] + RowsOf(events), next)
            == RehydrateAll(before) + [UserMessage(input)] + Flatten(turn)
  {
    HistoryIsTail(before + [UserRow(input)] + RowsOf(events), next);
    EmittedRows(turn, events);
    TurnSaved(before, input, RowsOf(events));
  }

  // ---- The service -----------------------------------------------------------------------------------

  class Session {
    // agent.chat_messages of one session, in order of creation.
    var rows: seq<Row>

    constructor ()
      ensures rows == []
    {
      rows := [];
    }

    method SaveMessage(row: Row)
      modifies this
      ensures rows == old(rows) + [row]
    {
      rows := rows + [row];
    }

    method FetchHistory(input: string) returns (history: seq<Message>)
      requires rows != [] && rows[|rows| - 1] == UserRow(input)
      ensures history == History(rows[..|rows| - 1], input)
    {
      var window := Window(rows);
      history := [];
      for i := 0 to |window|
        invariant history == RehydrateAll(window[..i])
      {
        history := history + [Rehydrate(window[i])];
      }
      if history != [] {
        var last := history[|history| - 1];
        if last.role == User && last.content == Some(input) { history := history[..|history| - 1]; }
      }
      assert rows[..|rows| - 1] + [UserRow(input)] == rows;
      assert window[|window| - 1] == UserRow(input);
      assert RehydrateAll(window)[..|window| - 1] == RehydrateAll(window[..|window| - 1]);
    }

    // The events reach the table in the order they were emitted.
    method Persist(events: seq<Event>)
      modifies this
      ensures rows == old(rows) + RowsOf(events)
    {
      assert events[..0] == [];
      for i := 0 to |events|
        invariant rows == old(rows) + RowsOf(events[..i])
      {
        assert events[..i + 1][..i] == events[..i];
        Regroup(old(rows), RowsOf(events[..i]), RowsOfEvent(events[i]));
        rows := rows + RowsOfEvent(events[i]);
      }
      assert events[..|events|] == events;
    }

    // One request: save the input, rebuild the history, run the agent, save what it emits.
    method Converse(agent: Agent, input: string) returns (ghost turn: seq<Message>)
      modifies this
      ensures Protocol(turn)
      ensures RehydrateAll(rows) == RehydrateAll(old(rows)) + [UserMessage(input)] + Flatten(turn)
      ensures AllPaired(old(rows)) ==> AllPaired(rows)
      ensures exists messages, events, prompts ::
                && Finished(agent, Opening(agent, History(old(rows), input), input), messages, events, prompts)
                && turn == messages[|Opening(agent, History(old(rows), input), input)|..]
                && rows == old(rows) + [UserRow(input)] + RowsOf(events)
    {
      SaveMessage(UserRow(input));
      assert rows[..|rows| - 1] == old(rows);
      var history := FetchHistory(input);
      var messages, events, prompts := Chat(agent, input, history);
      turn := messages[|Opening(agent, history, input)|..];
      EmittedRows(turn, events);
      TurnRowsPaired(turn);
      Persist(events);
      TurnSaved(old(rows), input, RowsOf(events));
    }
  }

  lemma TurnSaved(before: seq<Row>, input: string, after: seq<Row>)
    ensures RehydrateAll(before + [UserRow(input)] + after)
            == RehydrateAll(before) + [UserMessage(input)] + RehydrateAll(after)
    ensures AllPaired(before) && AllPaired(after) ==> AllPaired(before + [UserRow(input)] + after)
  {
    RehydrateConcat(before + [UserRow(input)], after);
    RehydrateConcat(before, [UserRow(input)]);
    assert RehydrateAll([UserRow(input)]) == [UserMessage(input)];
    if AllPaired(before) && AllPaired(after) {
      PairedConcat(before, [UserRow(input)]);
      PairedConcat(before + [UserRow(input)], after);
    }
  }
}
