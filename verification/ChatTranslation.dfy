/** internal/app/compat.go: the non-streaming translation of a Codex response into a
    chat completion. Items and responses carry the fields the code branches on; an
    absent string field is the empty string, as `stringValue` and `valueOr` read it. */
module ChatTranslation {
  import opened Prelude

  datatype Part = OutputText(text: string) | OtherPart

  datatype Item =
    | MessageItem(parts: seq<Part>)
    | CallItem(callId: string, id: string, name: string, arguments: string)
    | OtherItem

  datatype Response = Response(
    status: string,
    incompleteReason: string,
    outputText: Option<string>,
    output: seq<Item>,
    error: string)

  datatype Call = Call(id: string, name: string, arguments: string)

  datatype FunctionCall = FunctionCall(name: string, arguments: string)

  datatype Message = Message(
    content: Option<string>,
    toolCalls: seq<Call>,
    functionCall: Option<FunctionCall>)

  datatype Choice = Choice(index: nat, message: Message, finish: string)

  function PartsText(parts: seq<Part>): string {
    if parts == [] then ""
    else PartsText(DropLast(parts)) + if Last(parts).OutputText? then Last(parts).text else ""
  }

  function ItemText(item: Item): string {
    if item.MessageItem? then PartsText(item.parts) else ""
  }

  /** The texts of the output's messages, one after the other. */
  function MessagesText(output: seq<Item>): string {
    if output == [] then "" else MessagesText(DropLast(output)) + ItemText(Last(output))
  }

  function ResponseText(response: Response): string {
    if response.outputText.Some? then response.outputText.value else MessagesText(response.output)
  }

  /** The function calls of an output, in output order. */
  function CallItems(output: seq<Item>): (calls: seq<Item>)
    ensures forall c <- calls :: c.CallItem?
  {
    if output == [] then []
    else CallItems(DropLast(output)) + if Last(output).CallItem? then [Last(output)] else []
  }

  function CallId(item: Item): string
    requires item.CallItem?
  {
    if item.callId != "" then item.callId else item.id
  }

  function ToCall(item: Item): Call
    requires item.CallItem?
  {
    Call(CallId(item), item.name, item.arguments)
  }

  /** What a client of the non-streaming endpoint is promised to read. */
  function ExpectedMessage(response: Response, legacy: bool): Message {
    var calls := CallItems(response.output);
    var text := ResponseText(response);
    var content := if text == "" && calls != [] then None else Some(text);
    if legacy then
      Message(content, [], if calls == [] then None else Some(FunctionCall(calls[0].name, calls[0].arguments)))
    else
      Message(content, seq(|calls|, i requires 0 <= i < |calls| => ToCall(calls[i])), None)
  }

  function ExpectedFinish(response: Response, legacy: bool): string {
    if response.status == "incomplete" then
      if response.incompleteReason == "content_filter" then "content_filter" else "length"
    else if CallItems(response.output) == [] then "stop"
    else if legacy then "function_call"
    else "tool_calls"
  }

  /** `ensureResponse`, for the one field that decides the answer. */
  function EnsureResponse(response: Response): Response {
    if response.status == "" then response.(status := "completed") else response
  }

  // ------------------------------------------------------------------ what the client reads

  /** Why an answer ended: an incomplete one was filtered or too long; of the others, one
      without a call just stopped, and one with a call names it as its client knows calls. */
  predicate Finishes(finish: string, response: Response, legacy: bool) {
    var called := exists item <- response.output :: item.CallItem?;
    if response.status == "incomplete" then
      && (finish == "content_filter" <==> response.incompleteReason == "content_filter")
      && (finish == "length" <==> response.incompleteReason != "content_filter")
    else
      && (finish == "stop" <==> !called)
      && (finish == "function_call" <==> called && legacy)
      && (finish == "tool_calls" <==> called && !legacy)
  }

  /** The content is the response's text; there is none exactly when a call was made without a word. */
  predicate Says(message: Message, response: Response) {
    && (message.content == None <==> ResponseText(response) == "" && exists item <- response.output :: item.CallItem?)
    && (message.content.Some? ==> message.content.value == ResponseText(response))
  }

  lemma {:induction false} CallItemsAreCalls(output: seq<Item>)
    ensures CallItems(output) == [] <==> !exists item <- output :: item.CallItem?
  {
    if output != [] {
      CallItemsAreCalls(DropLast(output));
      assert output == DropLast(output) + [Last(output)];
    }
  }

  lemma ExpectationsTell(response: Response, legacy: bool)
    ensures Finishes(ExpectedFinish(response, legacy), response, legacy)
    ensures Says(ExpectedMessage(response, legacy), response)
  {
    CallItemsAreCalls(response.output);
  }

  /** Where the calls of an output stand, in order. */
  ghost predicate CallsAt(output: seq<Item>, at: seq<nat>) {
    && (forall j, k :: 0 <= j < k < |at| ==> at[j] < at[k])
    && (forall k :: 0 <= k < |at| ==> at[k] < |output| && output[at[k]].CallItem?)
    && forall i :: 0 <= i < |output| && output[i].CallItem? ==> i in at
  }

  lemma {:induction false} CallsStandInOrder(output: seq<Item>) returns (at: seq<nat>)
    ensures CallsAt(output, at) && |CallItems(output)| == |at|
    ensures forall k :: 0 <= k < |at| ==> CallItems(output)[k] == output[at[k]]
  {
    at := [];
    if output != [] {
      var before := DropLast(output);
      var earlier := CallsStandInOrder(before);
      at := earlier;
      if Last(output).CallItem? {
        at := earlier + [|before|];
        assert at[|earlier|] == |before| && forall i <- earlier :: i in at;
      }
    }
  }

  /** A client is told every call of the output, in order, under its call id, or its own id when
      it has none; a legacy client is told the first one only. */
  lemma CallsAreTold(response: Response, legacy: bool) returns (at: seq<nat>)
    ensures CallsAt(response.output, at)
    ensures var message := ExpectedMessage(response, legacy);
      if legacy then
        && message.toolCalls == []
        && (at == [] ==> message.functionCall == None)
        && (at != [] ==>
              message.functionCall
              == Some(FunctionCall(response.output[at[0]].name, response.output[at[0]].arguments)))
      else
        && message.functionCall == None && |message.toolCalls| == |at|
        && forall k :: 0 <= k < |at| ==>
             var item := response.output[at[k]];
             message.toolCalls[k] == Call(if item.callId == "" then item.id else item.callId, item.name, item.arguments)
  {
    at := CallsStandInOrder(response.output);
  }

  /** The text of an output is that of its messages' text parts, joined in order. */
  lemma {:induction false} TextsJoin(a: seq<Item>, b: seq<Item>)
    ensures MessagesText(a + b) == MessagesText(a) + MessagesText(b)
  {
    if b == [] {
      assert a + b == a;
    } else {
      var p, x := DropLast(b), Last(b);
      assert DropLast(a + b) == a + p && Last(a + b) == x;
      TextsJoin(a, p);
      assert MessagesText(a + b) == MessagesText(a + p) + ItemText(x);
      assert MessagesText(b) == MessagesText(p) + ItemText(x);
      hide MessagesText, ItemText;
    }
  }

  lemma {:induction false} PartsJoin(a: seq<Part>, b: seq<Part>)
    ensures PartsText(a + b) == PartsText(a) + PartsText(b)
  {
    if b == [] {
      assert a + b == a;
    } else {
      assert DropLast(a + b) == a + DropLast(b);
      PartsJoin(a, DropLast(b));
    }
  }

  lemma TextOfOne(item: Item, text: string)
    ensures MessagesText([item]) == ItemText(item) && (!item.MessageItem? ==> ItemText(item) == "")
    ensures ItemText(MessageItem([OutputText(text)])) == text && ItemText(MessageItem([OtherPart])) == ""
  {
    assert DropLast([item]) == [] && DropLast([OutputText(text)]) == [] && DropLast([OtherPart]) == [];
    assert PartsText([OutputText(text)]) == "" + text && PartsText([OtherPart]) == "" + "";
  }

  // ------------------------------------------------------------------ the code's form

  method MessageText(item: Item) returns (text: string)
    ensures text == ItemText(item)
  {
    text := "";
    if item.MessageItem? {
      for i := 0 to |item.parts|
        invariant text == PartsText(item.parts[..i])
      {
        PrefixUnfolds(item.parts, i);
        if item.parts[i].OutputText? {
          text := text + item.parts[i].text;
        }
      }
      assert item.parts[..|item.parts|] == item.parts;
    }
  }

  method ReadResponseText(response: Response) returns (text: string)
    ensures text == ResponseText(response)
  {
    if response.outputText.Some? {
      return response.outputText.value;
    }
    text := "";
    for i := 0 to |response.output|
      invariant text == MessagesText(response.output[..i])
    {
      PrefixUnfolds(response.output, i);
      if response.output[i].MessageItem? {
        var part := MessageText(response.output[i]);
        text := text + part;
      }
    }
    assert response.output[..|response.output|] == response.output;
  }

  /** `responseToChat`: every one of the `n` choices carries the expected message. */
  method ResponseToChat(response: Response, legacy: bool, n: int) returns (choices: seq<Choice>)
    ensures |choices| == if n < 1 then 1 else n
    ensures forall i :: 0 <= i < |choices| ==>
      choices[i] == Choice(i, ExpectedMessage(response, legacy), ExpectedFinish(response, legacy))
    ensures forall choice <- choices ::
      Finishes(choice.finish, response, legacy) && Says(choice.message, response)
  {
    var toolCalls: seq<Call> := [];
    var legacyCall: Option<FunctionCall> := None;
    ghost var calls := [];
    for i := 0 to |response.output|
      invariant calls == CallItems(response.output[..i])
      invariant legacy ==> toolCalls == []
      invariant legacy ==> legacyCall == if calls == [] then None
        else Some(FunctionCall(calls[0].name, calls[0].arguments))
      invariant !legacy ==> legacyCall == None && |toolCalls| == |calls|
      invariant !legacy ==> forall j :: 0 <= j < |calls| ==> toolCalls[j] == ToCall(calls[j])
    {
      PrefixUnfolds(response.output, i);
      var item := response.output[i];
      calls := CallItems(response.output[..i + 1]);
      if !item.CallItem? {
        continue;
      }
      if legacy {
        if legacyCall.None? {
          legacyCall := Some(FunctionCall(item.name, item.arguments));
        }
      } else {
        toolCalls := toolCalls + [Call(if item.callId != "" then item.callId else item.id, item.name, item.arguments)];
      }
    }
    assert response.output[..|response.output|] == response.output;
    var text := ReadResponseText(response);
    var message := Message(Some(text), [], None);
    if text == "" && (legacyCall.Some? || |toolCalls| > 0) {
      message := message.(content := None);
    }
    var finish := "stop";
    if legacyCall.Some? {
      message := message.(functionCall := legacyCall);
      finish := "function_call";
    } else if |toolCalls| > 0 {
      message := message.(toolCalls := toolCalls);
      finish := "tool_calls";
    }
    if response.status == "incomplete" {
      finish := "length";
      if response.incompleteReason == "content_filter" {
        finish := "content_filter";
      }
    }
    assert message == ExpectedMessage(response, legacy);
    ExpectationsTell(response, legacy);
    var count := if n < 1 then 1 else n;
    choices := seq(count, (i: nat) => Choice(i, message, finish));
  }
}
