/** internal/app/compat.go, the message loop of `chatToResponse`: chat messages become input
    items. Legacy function messages carry no call id, so the loop makes ids up and pairs each
    result with the latest call of its function. An absent string field is the empty string. */
module LegacyCalls {
  import opened Prelude
  import ChatStream

  datatype Function = Function(name: string, arguments: string)

  /** A tool call whose `function` is not an object has none. */
  datatype ToolCall = ToolCall(id: string, function_: Option<Function>)

  datatype Message =
    | Instruction(text: string)
    | ToolResult(toolCallId: string, name: string, output: string)
    | Assistant(text: string, functionCall: Option<Function>, toolCalls: seq<ToolCall>)
    | User(text: string)
    | Ignored

  datatype InputItem =
    | UserItem(text: string)
    | AssistantItem(text: string)
    | CallItem(callId: string, name: string, arguments: string)
    | ResultItem(callId: string, output: string)

  datatype State = State(instructions: seq<string>, input: seq<InputItem>, count: nat, latest: map<string, string>)

  const START := State([], [], 0, map[])

  // ------------------------------------------------------------------ specification

  function ValueOr(value: string, fallback: string): string {
    if value == "" then fallback else value
  }

  function LegacyId(k: nat): string {
    "call_legacy_" + ChatStream.Decimal(k)
  }

  /** What names the call of a result: clients may send the function name as the id. */
  function ResultKey(m: Message): string
    requires m.ToolResult?
  {
    ValueOr(m.toolCallId, ValueOr(m.name, "unknown"))
  }

  predicate IsLegacyCall(m: Message) {
    m.Assistant? && m.functionCall.Some?
  }

  /** An assistant message says something, or stands for its turn when it calls nothing. */
  function SpokenItems(m: Message): seq<InputItem>
    requires m.Assistant?
  {
    if m.text != "" || (m.functionCall.None? && m.toolCalls == []) then [AssistantItem(m.text)] else []
  }

  function ToolCallItems(calls: seq<ToolCall>): seq<InputItem> {
    if calls == [] then []
    else
      ToolCallItems(DropLast(calls)) +
      match Last(calls).function_
      case Some(f) => [CallItem(Last(calls).id, f.name, ValueOr(f.arguments, "{}"))]
      case None => []
  }

  function LegacyItem(m: Message, k: nat): InputItem
    requires IsLegacyCall(m)
  {
    CallItem(LegacyId(k), m.functionCall.value.name, ValueOr(m.functionCall.value.arguments, "{}"))
  }

  function Step(s: State, m: Message): State {
    match m
    case Instruction(text) => if text == "" then s else s.(instructions := s.instructions + [text])
    case ToolResult(_, _, output) =>
      var key := ResultKey(m);
      s.(input := s.input + [ResultItem(if key in s.latest then s.latest[key] else key, output)])
    case Assistant(_, None, toolCalls) => s.(input := s.input + SpokenItems(m) + ToolCallItems(toolCalls))
    case Assistant(_, Some(f), toolCalls) =>
      s.(input := s.input + SpokenItems(m) + [LegacyItem(m, s.count + 1)] + ToolCallItems(toolCalls),
         count := s.count + 1,
         latest := s.latest[f.name := LegacyId(s.count + 1)])
    case User(text) => s.(input := s.input + [UserItem(text)])
    case Ignored => s
  }

  function Run(messages: seq<Message>): State {
    if messages == [] then START else Step(Run(DropLast(messages)), Last(messages))
  }

  // ------------------------------------------------------------------ spelled out

  /** What each message adds: an instruction is no input; a user's or an assistant's words are an
      item; an assistant's legacy call and its tool calls follow them. */
  lemma MessagesMean(messages: seq<Message>, i: nat)
    requires i < |messages|
    ensures var m, before, s := messages[i], Run(messages[..i]), Run(messages[..i + 1]);
      match m
      case Instruction(text) =>
        s == before.(instructions := if text == "" then before.instructions else before.instructions + [text])
      case User(text) => s == before.(input := before.input + [UserItem(text)])
      case Ignored => s == before
      case ToolResult(_, _, _) => s.instructions == before.instructions && s.count == before.count
      case Assistant(text, functionCall, toolCalls) =>
        && s.instructions == before.instructions
        && s.input == before.input
           + (if text == "" && (functionCall.Some? || toolCalls != []) then [] else [AssistantItem(text)])
           + (match functionCall
              case None => []
              case Some(f) =>
                [CallItem(LegacyId(before.count + 1), f.name, if f.arguments == "" then "{}" else f.arguments)])
           + ToolCallItems(toolCalls)
  {
    PrefixUnfolds(messages, i);
    var m, before := messages[i], Run(messages[..i]);
    if m.Assistant? {
      assert before.input + SpokenItems(m) + [] == before.input + SpokenItems(m);
    }
  }

  /** Tool calls become call items under their own ids, in order; one that names no function is left out. */
  lemma {:induction false} ToolCallsJoin(a: seq<ToolCall>, b: seq<ToolCall>)
    ensures ToolCallItems(a + b) == ToolCallItems(a) + ToolCallItems(b)
  {
    if b == [] {
      assert a + b == a;
    } else {
      var p := DropLast(b);
      assert DropLast(a + b) == a + p && Last(a + b) == Last(b);
      ToolCallsJoin(a, p);
    }
  }

  lemma ToolCallOfOne(call: ToolCall)
    ensures ToolCallItems([call]) ==
      match call.function_
      case Some(f) => [CallItem(call.id, f.name, if f.arguments == "" then "{}" else f.arguments)]
      case None => []
  {
    assert DropLast([call]) == [] && ToolCallItems([]) == [];
  }

  // ------------------------------------------------------------------ the code's form

  method TranslateMessages(messages: seq<Message>) returns (instructions: seq<string>, input: seq<InputItem>)
    ensures instructions == Run(messages).instructions && input == Run(messages).input
  {
    instructions, input := [], [];
    var legacyCallCount: nat := 0;
    var latestLegacyCalls: map<string, string> := map[];
    for i := 0 to |messages|
      invariant State(instructions, input, legacyCallCount, latestLegacyCalls) == Run(messages[..i])
    {
      PrefixUnfolds(messages, i);
      match messages[i] {
        case Instruction(text) =>
          if text != "" {
            instructions := instructions + [text];
          }
        case ToolResult(toolCallId, name, output) =>
          var callId := ValueOr(toolCallId, ValueOr(name, "unknown"));
          if callId in latestLegacyCalls {
            callId := latestLegacyCalls[callId];
          }
          input := input + [ResultItem(callId, output)];
        case Assistant(text, functionCall, toolCalls) =>
          if text != "" || (functionCall.None? && |toolCalls| == 0) {
            input := input + [AssistantItem(text)];
          }
          if functionCall.Some? {
            legacyCallCount := legacyCallCount + 1;
            var callId := LegacyId(legacyCallCount);
            latestLegacyCalls := latestLegacyCalls[functionCall.value.name := callId];
            input := input + [CallItem(callId, functionCall.value.name, ValueOr(functionCall.value.arguments, "{}"))];
          }
          input := AppendToolCalls(input, toolCalls);
        case User(text) =>
          input := input + [UserItem(text)];
        case Ignored =>
      }
    }
    assert messages[..|messages|] == messages;
  }

  method AppendToolCalls(input: seq<InputItem>, toolCalls: seq<ToolCall>) returns (result: seq<InputItem>)
    ensures result == input + ToolCallItems(toolCalls)
  {
    result := input;
    for i := 0 to |toolCalls|
      invariant result == input + ToolCallItems(toolCalls[..i])
    {
      PrefixUnfolds(toolCalls, i);
      if toolCalls[i].function_.Some? {
        var f := toolCalls[i].function_.value;
        result := result + [CallItem(toolCalls[i].id, f.name, ValueOr(f.arguments, "{}"))];
      }
    }
    assert toolCalls[..|toolCalls|] == toolCalls;
  }

  // ------------------------------------------------------------------ the ids

  function DigitValue(c: char): nat {
    if '0' <= c <= '9' then (c - '0') as nat else 0
  }

  /** Digits read back. */
  function DigitsValue(digits: string): nat {
    if digits == "" then 0 else 10 * DigitsValue(DropLast(digits)) + DigitValue(Last(digits))
  }

  lemma {:induction false} DecimalReadsBack(n: nat)
    ensures DigitsValue(ChatStream.Decimal(n)) == n
  {
    var digit := "0123456789"[n % 10];
    assert DigitValue(digit) == n % 10;
    if n < 10 {
      assert ChatStream.Decimal(n) == [digit];
      assert DropLast([digit]) == "";
    } else {
      DecimalReadsBack(n / 10);
      assert ChatStream.Decimal(n) == ChatStream.Decimal(n / 10) + [digit];
      assert DropLast(ChatStream.Decimal(n)) == ChatStream.Decimal(n / 10);
    }
  }

  lemma LegacyIdsDiffer(j: nat, k: nat)
    ensures LegacyId(j) == LegacyId(k) <==> j == k
  {
    DecimalReadsBack(j);
    DecimalReadsBack(k);
    if LegacyId(j) == LegacyId(k) {
      assert LegacyId(j)[12..] == ChatStream.Decimal(j) && LegacyId(k)[12..] == ChatStream.Decimal(k);
    }
  }

  /** The number of legacy calls in a message list. */
  function LegacyCount(messages: seq<Message>): nat {
    if messages == [] then 0 else LegacyCount(DropLast(messages)) + if IsLegacyCall(Last(messages)) then 1 else 0
  }

  /** Where the latest legacy call of a function is. */
  function LatestCall(messages: seq<Message>, name: string): (at: Option<nat>)
    ensures at.None? ==>
      forall i :: 0 <= i < |messages| && IsLegacyCall(messages[i]) ==> messages[i].functionCall.value.name != name
    ensures at.Some? ==>
      && at.value < |messages| && IsLegacyCall(messages[at.value]) && messages[at.value].functionCall.value.name == name
      && forall i :: at.value < i < |messages| && IsLegacyCall(messages[i]) ==>
         messages[i].functionCall.value.name != name
  {
    if messages == [] then None
    else if IsLegacyCall(Last(messages)) && Last(messages).functionCall.value.name == name then Some(|messages| - 1)
    else LatestCall(DropLast(messages), name)
  }

  lemma {:induction false} CountIsTracked(messages: seq<Message>)
    ensures Run(messages).count == LegacyCount(messages)
  {
    if messages != [] {
      CountIsTracked(DropLast(messages));
    }
  }

  /** The call ids of a name are those of its latest call, numbered in order of the messages. */
  lemma {:induction false} LatestIsTracked(messages: seq<Message>, name: string)
    ensures var s := Run(messages);
      && s.count == LegacyCount(messages)
      && (name in s.latest <==> LatestCall(messages, name).Some?)
      && (name in s.latest ==>
          s.latest[name] == LegacyId(LegacyCount(messages[..LatestCall(messages, name).value]) + 1))
  {
    hide LegacyId, SpokenItems, ToolCallItems, LegacyItem;
    CountIsTracked(messages);
    if messages != [] {
      var p := DropLast(messages);
      LatestIsTracked(p, name);
      var at := LatestCall(messages, name);
      assert at.Some? ==> messages[..at.value] == p[..at.value];
      assert p[..|p|] == p;
    }
  }

  lemma {:induction false} CountGrows(messages: seq<Message>, i: nat, j: nat)
    requires i < j <= |messages| && IsLegacyCall(messages[i])
    ensures LegacyCount(messages[..i]) < LegacyCount(messages[..j])
    decreases j
  {
    PrefixUnfolds(messages, j - 1);
    if i < j - 1 {
      CountGrows(messages, i, j - 1);
    }
  }

  lemma {:induction false} InputGrows(messages: seq<Message>, j: nat)
    requires j <= |messages|
    ensures Run(messages[..j]).input <= Run(messages).input
    decreases |messages|
  {
    if j == |messages| {
      assert messages[..j] == messages;
    } else {
      assert DropLast(messages)[..j] == messages[..j];
      InputGrows(DropLast(messages), j);
    }
  }

  /** The position of the call a legacy message makes. */
  function CallPosition(messages: seq<Message>, i: nat): nat
    requires i < |messages| && IsLegacyCall(messages[i])
  {
    |Run(messages[..i]).input| + |SpokenItems(messages[i])|
  }

  /** Each legacy call is in the input under an id of its own: the ids count up. */
  lemma CallIsPlaced(messages: seq<Message>, i: nat)
    requires i < |messages| && IsLegacyCall(messages[i])
    ensures CallPosition(messages, i) < |Run(messages[..i + 1]).input| <= |Run(messages).input|
    ensures Run(messages).input[CallPosition(messages, i)] == LegacyItem(messages[i], LegacyCount(messages[..i]) + 1)
  {
    PrefixUnfolds(messages, i);
    LatestIsTracked(messages[..i], "");
    InputGrows(messages, i + 1);
    var s := Run(messages[..i]);
    var item := LegacyItem(messages[i], s.count + 1);
    var rest := ToolCallItems(messages[i].toolCalls);
    assert Run(messages[..i + 1]).input == s.input + SpokenItems(messages[i]) + [item] + rest;
  }

  lemma CallIdsAreDistinct(messages: seq<Message>, i: nat, j: nat)
    requires i < j < |messages| && IsLegacyCall(messages[i]) && IsLegacyCall(messages[j])
    ensures CallPosition(messages, i) < CallPosition(messages, j) < |Run(messages).input|
    ensures var first, second := Run(messages).input[CallPosition(messages, i)],
      Run(messages).input[CallPosition(messages, j)];
      first.CallItem? && second.CallItem? && first.callId != second.callId
  {
    hide Run, LegacyId, LegacyCount;
    CallIsPlaced(messages, i);
    CallIsPlaced(messages, j);
    CountGrows(messages, i, j);
    LegacyIdsDiffer(LegacyCount(messages[..i]) + 1, LegacyCount(messages[..j]) + 1);
    assert messages[..j][..i + 1] == messages[..i + 1];
    InputGrows(messages[..j], i + 1);
  }

  lemma CallStandsBefore(messages: seq<Message>, i: nat, j: nat)
    requires i < j <= |messages| && IsLegacyCall(messages[i])
    ensures CallPosition(messages, i) < |Run(messages[..j]).input| <= |Run(messages).input|
    ensures Run(messages).input[CallPosition(messages, i)] == LegacyItem(messages[i], LegacyCount(messages[..i]) + 1)
  {
    hide Run;
    CallIsPlaced(messages, i);
    assert messages[..j][..i + 1] == messages[..i + 1];
    InputGrows(messages[..j], i + 1);
    InputGrows(messages, j);
  }

  lemma ResultIsPlaced(messages: seq<Message>, j: nat)
    requires j < |messages| && messages[j].ToolResult?
    ensures var s, key := Run(messages[..j]), ResultKey(messages[j]);
      && |s.input| < |Run(messages).input|
      && Run(messages).input[|s.input|]
         == ResultItem(if key in s.latest then s.latest[key] else key, messages[j].output)
  {
    PrefixUnfolds(messages, j);
    InputGrows(messages, j + 1);
  }

  /** A result whose key names an earlier legacy call gets the id of the latest one, which is
      earlier in the input under that name; any other result keeps its own key. */
  lemma ResultsFollowTheirCalls(messages: seq<Message>, j: nat)
    requires j < |messages| && messages[j].ToolResult?
    ensures var key, at := ResultKey(messages[j]), |Run(messages[..j]).input|;
      && at < |Run(messages).input|
      && Run(messages).input[at].ResultItem? && Run(messages).input[at].output == messages[j].output
      && match LatestCall(messages[..j], key)
         case None => Run(messages).input[at].callId == key
         case Some(i) =>
           && i < j && IsLegacyCall(messages[i])
           && CallPosition(messages, i) < at
           && Run(messages).input[CallPosition(messages, i)].CallItem?
           && Run(messages).input[CallPosition(messages, i)].name == key
           && Run(messages).input[CallPosition(messages, i)].callId == Run(messages).input[at].callId
  {
    hide LatestCall, LegacyCount, LegacyId, Run, CallPosition;
    var p, key := messages[..j], ResultKey(messages[j]);
    ResultIsPlaced(messages, j);
    LatestIsTracked(p, key);
    var i := LatestCall(p, key);
    if i.Some? {
      assert p[..i.value] == messages[..i.value] && p[i.value] == messages[i.value];
      CallStandsBefore(messages, i.value, j);
    }
  }

  /** A call stays next to a result that answers it at once: its text comes before it. */
  lemma CallsStayNextToTheirResults(messages: seq<Message>, i: nat)
    requires i + 1 < |messages| && IsLegacyCall(messages[i]) && messages[i].toolCalls == []
    requires messages[i + 1].ToolResult? && ResultKey(messages[i + 1]) == messages[i].functionCall.value.name
    ensures |Run(messages[..i + 1]).input| == CallPosition(messages, i) + 1
    ensures CallPosition(messages, i) + 1 < |Run(messages).input|
    ensures var at, input := CallPosition(messages, i), Run(messages).input;
      var call, result := input[at], input[at + 1];
      call.CallItem? && result.ResultItem? && result.callId == call.callId
  {
    PrefixUnfolds(messages, i);
    ResultsFollowTheirCalls(messages, i + 1);
    assert LatestCall(messages[..i + 1], messages[i].functionCall.value.name) == Some(i);
  }
}
