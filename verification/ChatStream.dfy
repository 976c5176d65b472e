/** internal/app/server.go, `streamChat`: a state machine that turns Codex events into
    chat completion chunks as they arrive. `Step` is its specification on values, the
    class is the code's own form, and `AssembleChoice` is the client's side: the
    concatenating accumulator a Chat Completions client runs over one choice. */
module ChatStream {
  import opened Prelude
  import opened ChatTranslation

  datatype Event =
    | Lifecycle
    | TextDelta(delta: string)
    | ItemAdded(outputIndex: int, item: Option<Item>)
    | ArgumentsDelta(outputIndex: int, delta: string)
    | ItemDone(outputIndex: int, item: Option<Item>)
    | ErrorEvent(detail: string)
    | Completed(response: Option<Response>)
    | Incomplete(response: Option<Response>)
    | Failed(response: Option<Response>)
    | OtherEvent

  datatype Delta =
    | RoleDelta
    | ContentDelta(text: string)
    | ToolStart(index: nat, id: string, name: string, arguments: string)
    | ToolArguments(index: nat, arguments: string)
    | FunctionStart(name: string, arguments: string)
    | FunctionArguments(arguments: string)
    | EmptyDelta

  datatype ChunkChoice = ChunkChoice(index: nat, delta: Delta, finish: Option<string>)

  datatype Frame =
    | Chunk(choices: seq<ChunkChoice>)
    | UsageChunk
    | ErrorFrame(detail: string)
    | DoneFrame

  /** One function_call output item, as `chatStreamToolCall` tracks it. */
  datatype ToolCall = ToolCall(index: nat, started: bool, sent: string)

  datatype Config = Config(legacy: bool, n: nat, includeUsage: bool)

  datatype State = State(roleSent: bool, sawText: bool, toolCalls: map<int, ToolCall>, outputs: seq<Item>)

  datatype StepResult = StepResult(state: State, frames: seq<Frame>, failure: Option<string>)

  const INITIAL := State(false, false, map[], [])

  // ------------------------------------------------------------------ the machine

  function ChunkOf(config: Config, delta: Delta, finish: Option<string>): Frame {
    Chunk(seq(config.n, (i: nat) => ChunkChoice(i, delta, finish)))
  }

  /** The digits of `call_%d`. */
  function Decimal(n: nat): string {
    if n < 10 then ["0123456789"[n]] else Decimal(n / 10) + ["0123456789"[n % 10]]
  }

  /** The id a streamed tool call starts with: unlike `CallId`, never empty. */
  function StreamedId(item: Item, index: nat): string
    requires item.CallItem?
  {
    if CallId(item) != "" then CallId(item) else "call_" + Decimal(index)
  }

  function StartDelta(config: Config, item: Item, index: nat, arguments: string): Delta
    requires item.CallItem?
  {
    if config.legacy then FunctionStart(item.name, arguments)
    else ToolStart(index, StreamedId(item, index), item.name, arguments)
  }

  function ArgumentsChunk(config: Config, index: nat, arguments: string): Frame {
    ChunkOf(config, if config.legacy then FunctionArguments(arguments) else ToolArguments(index, arguments), None)
  }

  function StartChunk(config: Config, item: Item, index: nat, arguments: string): Frame
    requires item.CallItem?
  {
    ChunkOf(config, StartDelta(config, item, index, arguments), None)
  }

  function CallFor(toolCalls: map<int, ToolCall>, outputIndex: int): ToolCall {
    if outputIndex in toolCalls then toolCalls[outputIndex] else ToolCall(|toolCalls|, false, "")
  }

  /** A legacy client sees its first call only. */
  predicate Visible(config: Config, call: ToolCall) {
    config.legacy ==> call.index == 0
  }

  /** A failure may still become an HTTP error while only such events came. */
  predicate HoldsRole(e: Event) {
    e.Lifecycle? || e.ErrorEvent? || e.Failed?
  }

  function Effective(response: Response, outputs: seq<Item>): Response {
    EnsureResponse(if response.output == [] then response.(output := outputs) else response)
  }

  /** A call event leaves its call in the table and tells whether the client may see it. */
  function Register(s: State, outputIndex: int): State {
    s.(toolCalls := s.toolCalls[outputIndex := CallFor(s.toolCalls, outputIndex)])
  }

  function SetCall(s: State, outputIndex: int, call: ToolCall): State {
    s.(toolCalls := s.toolCalls[outputIndex := call])
  }

  function AddedStep(config: Config, s: State, outputIndex: int, item: Item): StepResult
    requires item.CallItem?
  {
    var call := CallFor(s.toolCalls, outputIndex);
    if !Visible(config, call) then StepResult(Register(s, outputIndex), [], None)
    else StepResult(SetCall(s, outputIndex, ToolCall(call.index, true, "")),
                    [StartChunk(config, item, call.index, "")], None)
  }

  function ArgumentsStep(config: Config, s: State, outputIndex: int, delta: string): StepResult {
    var call := CallFor(s.toolCalls, outputIndex);
    if !Visible(config, call) then StepResult(Register(s, outputIndex), [], None)
    else
      StepResult(SetCall(s, outputIndex, ToolCall(call.index, true, call.sent + delta)),
                 [ArgumentsChunk(config, call.index, delta)], None)
  }

  function CallDoneStep(config: Config, s: State, outputIndex: int, item: Item): StepResult
    requires item.CallItem?
  {
    var call := CallFor(s.toolCalls, outputIndex);
    if !Visible(config, call) then StepResult(Register(s, outputIndex), [], None)
    else if !call.started then
      StepResult(SetCall(s, outputIndex, ToolCall(call.index, true, item.arguments)),
                 [StartChunk(config, item, call.index, item.arguments)], None)
    else if call.sent <= item.arguments && call.sent != item.arguments then
      StepResult(SetCall(s, outputIndex, call.(sent := item.arguments)),
                 [ArgumentsChunk(config, call.index, item.arguments[|call.sent|..])], None)
    else StepResult(s, [], None)
  }

  function MessageDoneStep(config: Config, s: State, item: Item): StepResult {
    if s.sawText || ItemText(item) == "" then StepResult(s, [], None)
    else StepResult(s.(sawText := true), [ChunkOf(config, ContentDelta(ItemText(item)), None)], None)
  }

  function DoneStep(config: Config, s: State, outputIndex: int, item: Item): StepResult {
    var s' := s.(outputs := s.outputs + [item]);
    match item
    case CallItem(_, _, _, _) => CallDoneStep(config, s', outputIndex, item)
    case MessageItem(_) => MessageDoneStep(config, s', item)
    case OtherItem => StepResult(s', [], None)
  }

  function TerminalStep(config: Config, s: State, response: Option<Response>): StepResult {
    if response.None? then StepResult(s, [], None)
    else if response.value.status == "failed" then StepResult(s, [], Some(response.value.error))
    else
      var finish := ExpectedFinish(Effective(response.value, s.outputs), config.legacy);
      StepResult(s, [ChunkOf(config, EmptyDelta, Some(finish))]
                    + if config.includeUsage then [UsageChunk] else [], None)
  }

  function BodyStep(config: Config, s: State, e: Event): StepResult {
    match e
    case TextDelta(delta) =>
      if delta == "" then StepResult(s, [], None)
      else StepResult(s.(sawText := true), [ChunkOf(config, ContentDelta(delta), None)], None)
    case ItemAdded(outputIndex, Some(CallItem(_, _, _, _))) => AddedStep(config, s, outputIndex, e.item.value)
    case ArgumentsDelta(outputIndex, delta) => ArgumentsStep(config, s, outputIndex, delta)
    case ItemDone(outputIndex, Some(item)) => DoneStep(config, s, outputIndex, item)
    case ErrorEvent(detail) => StepResult(s, [], Some(detail))
    case Completed(response) => TerminalStep(config, s, response)
    case Incomplete(response) => TerminalStep(config, s, response)
    case Failed(response) => StepResult(s, [], Some(if response.Some? then response.value.error else ""))
    case _ => StepResult(s, [], None)
  }

  function RoleFrames(config: Config, s: State, e: Event): seq<Frame> {
    if HoldsRole(e) || s.roleSent then [] else [ChunkOf(config, RoleDelta, None)]
  }

  function RoleState(s: State, e: Event): State {
    if HoldsRole(e) then s else s.(roleSent := true)
  }

  function Step(config: Config, s: State, e: Event): StepResult {
    var r := BodyStep(config, RoleState(s, e), e);
    r.(frames := RoleFrames(config, s, e) + r.frames)
  }

  /** The whole run: frames accumulate until an event fails the stream. */
  function Run(config: Config, es: seq<Event>): StepResult {
    if es == [] then StepResult(INITIAL, [], None)
    else
      var before := Run(config, DropLast(es));
      if before.failure.Some? then before
      else
        var r := Step(config, before.state, Last(es));
        r.(frames := before.frames + r.frames)
  }

  // ------------------------------------------------------------------ the code's form

  class ChatStreamer {
    const config: Config
    var roleSent: bool
    var sawText: bool
    var toolCalls: map<int, ToolCall>
    var outputs: seq<Item>
    var written: seq<Frame>

    ghost function View(): State
      reads this
    {
      State(roleSent, sawText, toolCalls, outputs)
    }

    constructor (config: Config)
      ensures this.config == config && View() == INITIAL && written == []
    {
      this.config := config;
      roleSent, sawText, toolCalls, outputs, written := false, false, map[], [], [];
    }

    method Emit(delta: Delta, finish: Option<string>)
      modifies this`written
      ensures written == old(written) + [ChunkOf(config, delta, finish)]
    {
      var choices := [];
      for i := 0 to config.n
        invariant choices == seq(i, (k: nat) => ChunkChoice(k, delta, finish))
        invariant written == old(written)
      {
        choices := choices + [ChunkChoice(i, delta, finish)];
      }
      written := written + [Chunk(choices)];
    }

    method Role()
      modifies this`written, this`roleSent
      ensures roleSent
      ensures written == old(written) + if old(roleSent) then [] else [ChunkOf(config, RoleDelta, None)]
    {
      if !roleSent {
        roleSent := true;
        Emit(RoleDelta, None);
      }
    }

    method LookUpCall(outputIndex: int) returns (call: ToolCall, visible: bool)
      modifies this`toolCalls
      ensures call == CallFor(old(toolCalls), outputIndex)
      ensures visible == Visible(config, call)
      ensures toolCalls == old(toolCalls)[outputIndex := call]
    {
      if outputIndex in toolCalls {
        call := toolCalls[outputIndex];
      } else {
        call := ToolCall(|toolCalls|, false, "");
        toolCalls := toolCalls[outputIndex := call];
      }
      visible := !(config.legacy && call.index > 0);
    }

    method StartCall(item: Item, index: nat, arguments: string)
      requires item.CallItem?
      modifies this`written
      ensures written == old(written) + [StartChunk(config, item, index, arguments)]
    {
      if config.legacy {
        Emit(FunctionStart(item.name, arguments), None);
      } else {
        Emit(ToolStart(index, StreamedId(item, index), item.name, arguments), None);
      }
    }

    method SendArguments(index: nat, arguments: string)
      modifies this`written
      ensures written == old(written) + [ArgumentsChunk(config, index, arguments)]
    {
      Emit(if config.legacy then FunctionArguments(arguments) else ToolArguments(index, arguments), None);
    }

    method HandleAdded(outputIndex: int, item: Item)
      requires item.CallItem? && roleSent
      modifies this
      ensures var r := AddedStep(config, old(View()), outputIndex, item);
        View() == r.state && written == old(written) + r.frames
    {
      var call, visible := LookUpCall(outputIndex);
      if visible {
        Role();
        toolCalls := toolCalls[outputIndex := ToolCall(call.index, true, "")];
        StartCall(item, call.index, "");
      }
    }

    method HandleArguments(outputIndex: int, delta: string)
      requires roleSent
      modifies this
      ensures var r := ArgumentsStep(config, old(View()), outputIndex, delta);
        View() == r.state && written == old(written) + r.frames
    {
      var call, visible := LookUpCall(outputIndex);
      if visible {
        Role();
        toolCalls := toolCalls[outputIndex := ToolCall(call.index, true, call.sent + delta)];
        SendArguments(call.index, delta);
      }
    }

    method HandleCallDone(outputIndex: int, item: Item)
      requires item.CallItem? && roleSent
      modifies this
      ensures var r := CallDoneStep(config, old(View()), outputIndex, item);
        View() == r.state && written == old(written) + r.frames
    {
      var call, visible := LookUpCall(outputIndex);
      if !visible {
        return;
      }
      if !call.started {
        Role();
        toolCalls := toolCalls[outputIndex := ToolCall(call.index, true, item.arguments)];
        StartCall(item, call.index, item.arguments);
      } else if call.sent <= item.arguments {
        var rest := item.arguments[|call.sent|..];
        if rest != "" {
          toolCalls := toolCalls[outputIndex := call.(sent := item.arguments)];
          SendArguments(call.index, rest);
        }
      }
    }

    method HandleDone(outputIndex: int, item: Item)
      requires roleSent
      modifies this
      ensures var r := DoneStep(config, old(View()), outputIndex, item);
        View() == r.state && written == old(written) + r.frames
    {
      outputs := outputs + [item];
      if item.CallItem? {
        HandleCallDone(outputIndex, item);
      } else if item.MessageItem? && !sawText {
        var text := MessageText(item);
        if text != "" {
          Role();
          sawText := true;
          Emit(ContentDelta(text), None);
        }
      }
    }

    method HandleTerminal(response: Option<Response>) returns (failure: Option<string>)
      requires roleSent
      modifies this
      ensures var r := TerminalStep(config, old(View()), response);
        View() == r.state && written == old(written) + r.frames && failure == r.failure
    {
      hide Finishes, Says, ExpectedMessage;
      if response.None? {
        return None;
      }
      var resp := response.value;
      if resp.status == "failed" {
        return Some(resp.error);
      }
      if resp.output == [] && outputs != [] {
        resp := resp.(output := outputs);
      }
      resp := EnsureResponse(resp);
      Role();
      var choices := ResponseToChat(resp, config.legacy, config.n);
      Emit(EmptyDelta, Some(choices[0].finish));
      if config.includeUsage {
        written := written + [UsageChunk];
      }
      failure := None;
    }

    method HandleBody(e: Event) returns (failure: Option<string>)
      requires roleSent || HoldsRole(e)
      modifies this
      ensures var r := BodyStep(config, old(View()), e);
        View() == r.state && written == old(written) + r.frames && failure == r.failure
    {
      failure := None;
      match e {
        case TextDelta(delta) =>
          Role();
          if delta != "" {
            sawText := true;
            Emit(ContentDelta(delta), None);
          }
        case ItemAdded(outputIndex, item) =>
          if item.Some? && item.value.CallItem? {
            HandleAdded(outputIndex, item.value);
          }
        case ArgumentsDelta(outputIndex, delta) =>
          HandleArguments(outputIndex, delta);
        case ItemDone(outputIndex, item) =>
          if item.Some? {
            HandleDone(outputIndex, item.value);
          }
        case ErrorEvent(detail) =>
          failure := Some(detail);
        case Completed(response) =>
          failure := HandleTerminal(response);
        case Incomplete(response) =>
          failure := HandleTerminal(response);
        case Failed(response) =>
          failure := Some(if response.Some? then response.value.error else "");
        case Lifecycle =>
        case OtherEvent =>
      }
    }

    /** The callback the stream runs on each event. */
    method Handle(e: Event) returns (failure: Option<string>)
      modifies this
      ensures var r := Step(config, old(View()), e);
        View() == r.state && written == old(written) + r.frames && failure == r.failure
    {
      if !e.Lifecycle? && !e.ErrorEvent? && !e.Failed? {
        Role();
      }
      assert View() == RoleState(old(View()), e);
      failure := HandleBody(e);
    }
  }

  /** `streamChat` over the events the retry loop delivers and the error it ends with.
      A failure before the role chunk is an HTTP error on an untouched response. */
  method StreamChat(config: Config, es: seq<Event>, streamError: Option<string>)
    returns (httpError: Option<string>, frames: seq<Frame>)
    ensures var run := Run(config, es);
      var failure := if run.failure.Some? then run.failure else streamError;
      if failure.Some? && !run.state.roleSent then httpError == failure && frames == run.frames
      else
        httpError == None
        && frames == run.frames + (if failure.Some? then [ErrorFrame(failure.value)] else []) + [DoneFrame]
  {
    var streamer := new ChatStreamer(config);
    var failure: Option<string> := None;
    var i := 0;
    while i < |es| && failure.None?
      invariant 0 <= i <= |es|
      invariant streamer.config == config && fresh(streamer)
      invariant Run(config, es[..i]) == StepResult(streamer.View(), streamer.written, failure)
    {
      PrefixUnfolds(es, i);
      failure := streamer.Handle(es[i]);
      i := i + 1;
    }
    if failure.None? {
      failure := streamError;
      assert es[..i] == es;
    } else {
      FailureStops(config, es, i);
    }
    if failure.Some? && !streamer.roleSent {
      return failure, streamer.written;
    }
    httpError := None;
    frames := streamer.written + (if failure.Some? then [ErrorFrame(failure.value)] else []) + [DoneFrame];
  }

  lemma {:induction false} FailureStops(config: Config, es: seq<Event>, i: nat)
    requires i <= |es| && Run(config, es[..i]).failure.Some?
    ensures Run(config, es) == Run(config, es[..i])
    decreases |es|
  {
    if i == |es| {
      assert es[..i] == es;
    } else {
      assert DropLast(es)[..i] == es[..i];
      FailureStops(config, DropLast(es), i);
    }
  }

  // ------------------------------------------------------------------ the client

  /** What a client has put together from the deltas of one choice. */
  datatype Answer = Answer(
    role: bool,
    content: string,
    toolCalls: map<nat, Call>,
    functionCall: Option<FunctionCall>,
    finish: Option<string>)

  const BLANK := Answer(false, "", map[], None, None)

  /** Clients join the string fields of a tool call by index. */
  function JoinCall(calls: map<nat, Call>, index: nat, id: string, name: string, arguments: string): map<nat, Call> {
    var c := if index in calls then calls[index] else Call("", "", "");
    calls[index := Call(c.id + id, c.name + name, c.arguments + arguments)]
  }

  function JoinFunction(call: Option<FunctionCall>, name: string, arguments: string): Option<FunctionCall> {
    var c := if call.Some? then call.value else FunctionCall("", "");
    Some(FunctionCall(c.name + name, c.arguments + arguments))
  }

  function ApplyDelta(a: Answer, delta: Delta): Answer {
    match delta
    case RoleDelta => a.(role := true)
    case ContentDelta(text) => a.(content := a.content + text)
    case ToolStart(index, id, name, arguments) => a.(toolCalls := JoinCall(a.toolCalls, index, id, name, arguments))
    case ToolArguments(index, arguments) => a.(toolCalls := JoinCall(a.toolCalls, index, "", "", arguments))
    case FunctionStart(name, arguments) => a.(functionCall := JoinFunction(a.functionCall, name, arguments))
    case FunctionArguments(arguments) => a.(functionCall := JoinFunction(a.functionCall, "", arguments))
    case EmptyDelta => a
  }

  function ApplyChoice(a: Answer, c: ChunkChoice): Answer {
    var b := ApplyDelta(a, c.delta);
    if c.finish.Some? then b.(finish := c.finish) else b
  }

  function ApplyChoices(a: Answer, choices: seq<ChunkChoice>, i: nat): Answer {
    if choices == [] then a
    else
      var before := ApplyChoices(a, DropLast(choices), i);
      if Last(choices).index == i then ApplyChoice(before, Last(choices)) else before
  }

  function ApplyFrame(a: Answer, frame: Frame, i: nat): Answer {
    if frame.Chunk? then ApplyChoices(a, frame.choices, i) else a
  }

  function AssembleFrom(a: Answer, frames: seq<Frame>, i: nat): Answer {
    if frames == [] then a else ApplyFrame(AssembleFrom(a, DropLast(frames), i), Last(frames), i)
  }

  function AssembleChoice(frames: seq<Frame>, i: nat): Answer {
    AssembleFrom(BLANK, frames, i)
  }
}
