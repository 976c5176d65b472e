/** internal/app/compat.go, `normalizeResponseInput` and `responseContext`: what an input or
    an output contributes to the conversation sent upstream. Fields are the ones the code
    branches on; `None` is an absent or null field. */
module InputItems {
  import opened Prelude
  import opened ChatTranslation

  datatype Content = TextContent(text: string) | PartsContent(parts: seq<Part>)

  datatype InputItem =
    | Reasoning(encrypted: string, summary: Option<seq<string>>)
    | TypedMessage(role: string, content: Content, phase: Option<string>)
    | BareMessage(role: string, content: Content, phase: Option<string>)
    | FunctionCallItem(id: Option<string>, status: Option<string>, callId: Option<string>, name: string,
                       arguments: Option<string>)
    | FunctionCallOutput(id: Option<string>, status: Option<string>, callId: Option<string>, output: string)
    | UnknownItem(text: string)

  /** An element of a list: an object, or any other JSON value. */
  datatype Value = Object(item: InputItem) | Plain(text: string)

  datatype Input =
    | NoInput
    | TextInput(text: string)
    | ListInput(values: seq<Value>)
    | ObjectInput(item: InputItem)
    | OtherInput(text: string)

  datatype Output = Output(id: string, status: string, outputText: Option<string>, values: seq<Value>)

  // ------------------------------------------------------------------ specification

  function ValueOr(value: Option<string>, fallback: Option<string>): Option<string> {
    if value.None? || value.value == "" then fallback else value
  }

  /** The text of a message is that of its `output_text` parts; text that is not in parts is not read. */
  function TextOf(content: Content): string {
    if content.PartsContent? then PartsText(content.parts) else ""
  }

  /** `normalizeInputItem` on an object */
  function Normalize(item: InputItem): Option<InputItem> {
    match item
    case Reasoning(encrypted, summary) =>
      if encrypted == "" then None else Some(Reasoning(encrypted, Some(if summary.Some? then summary.value else [])))
    case TypedMessage(role, content, phase) =>
      if role == "assistant" then Some(BareMessage("assistant", TextContent(TextOf(content)), phase)) else Some(item)
    case FunctionCallItem(id, _, callId, name, arguments) =>
      Some(FunctionCallItem(None, None, ValueOr(callId, id), name, ValueOr(arguments, Some("{}"))))
    case FunctionCallOutput(_, _, callId, output) =>
      Some(FunctionCallOutput(None, None, ValueOr(callId, Some("unknown")), output))
    case _ => Some(item)
  }

  function NormalizeValue(value: Value): seq<Value> {
    if value.Plain? then [value]
    else match Normalize(value.item) case Some(item) => [Object(item)] case None => []
  }

  function NormalizeAll(values: seq<Value>): seq<Value> {
    if values == [] then [] else NormalizeAll(DropLast(values)) + NormalizeValue(Last(values))
  }

  function UserText(text: string): Value {
    Object(BareMessage("user", TextContent(text), None))
  }

  function Normalized(input: Input): seq<Value> {
    match input
    case NoInput => []
    case TextInput(text) => [UserText(text)]
    case ListInput(values) => NormalizeAll(values)
    case ObjectInput(item) => NormalizeValue(Object(item))
    case OtherInput(text) => [UserText(text)]
  }

  function Objects(values: seq<Value>): seq<Value> {
    if values == [] then [] else Objects(DropLast(values)) + if Last(values).Object? then [Last(values)] else []
  }

  function MessageTexts(values: seq<Value>): string {
    if values == [] then ""
    else
      MessageTexts(DropLast(values)) +
      if Last(values).Object? && Last(values).item.TypedMessage? then TextOf(Last(values).item.content) else ""
  }

  function TextOfOutput(output: Output): string {
    if output.outputText.Some? then output.outputText.value else MessageTexts(output.values)
  }

  /** What a response adds to the conversation: its items, or its text when no item is left. */
  function ContextOf(output: Output): seq<Value> {
    var items := NormalizeAll(Objects(output.values));
    if items == [] && TextOfOutput(output) != "" then
      [Object(BareMessage("assistant", TextContent(TextOfOutput(output)), None))]
    else items
  }

  // ------------------------------------------------------------------ spelled out

  predicate Given(field: Option<string>) {
    field.Some? && field.value != ""
  }

  /** A replayed call loses its own id and its status; it keeps its call id, or takes its own id,
      and has empty arguments when it has none. */
  lemma CallsNormalized(item: InputItem)
    requires item.FunctionCallItem?
    ensures var got := Normalize(item);
      && got.Some? && got.value.FunctionCallItem? && got.value.id == None && got.value.status == None
      && got.value.name == item.name
      && got.value.callId == (if Given(item.callId) then item.callId else item.id)
      && got.value.arguments == Some(if Given(item.arguments) then item.arguments.value else "{}")
  {
  }

  /** A result loses the same, and stands for an unknown call when it names none. */
  lemma ResultsNormalized(item: InputItem)
    requires item.FunctionCallOutput?
    ensures var got := Normalize(item);
      && got.Some? && got.value.FunctionCallOutput? && got.value.id == None && got.value.status == None
      && got.value.output == item.output
      && got.value.callId == Some(if Given(item.callId) then item.callId.value else "unknown")
  {
  }

  /** Reasoning goes unless it is encrypted; a finished message of the assistant becomes its text;
      everything else stays as it is. */
  lemma OthersNormalized(item: InputItem)
    ensures item.Reasoning? ==> (Normalize(item) == None <==> item.encrypted == "")
    ensures item.Reasoning? && item.encrypted != "" ==>
      Normalize(item) == Some(item.(summary := Some(if item.summary.Some? then item.summary.value else [])))
    ensures item.TypedMessage? && item.role == "assistant" ==>
      Normalize(item) == Some(BareMessage("assistant", TextContent(TextOf(item.content)), item.phase))
    ensures (item.TypedMessage? && item.role != "assistant") || item.BareMessage? || item.UnknownItem? ==>
      Normalize(item) == Some(item)
  {
  }

  /** A text is what the user says. */
  lemma TextsAreTheUsers(text: string)
    ensures Normalized(TextInput(text)) == [Object(BareMessage("user", TextContent(text), None))]
    ensures Normalized(OtherInput(text)) == [Object(BareMessage("user", TextContent(text), None))]
    ensures Normalized(NoInput) == [] && Normalized(ListInput([])) == []
  {
  }

  /** A list is normalized value by value, in order; what is not an object stays. */
  lemma ListsNormalized(values: seq<Value>, value: Value)
    ensures Normalized(ListInput(values + [value])) == Normalized(ListInput(values)) +
      match value
      case Plain(_) => [value]
      case Object(item) => match Normalize(item) case Some(got) => [Object(got)] case None => []
  {
    NormalizeOneMore(values, value);
  }

  /** A response contributes its normalized objects, in order; without any, its text. */
  lemma {:induction false} ObjectsJoin(a: seq<Value>, b: seq<Value>)
    ensures Objects(a + b) == Objects(a) + Objects(b)
  {
    if b == [] {
      assert a + b == a;
    } else {
      assert DropLast(a + b) == a + DropLast(b) && Last(a + b) == Last(b);
      ObjectsJoin(a, DropLast(b));
    }
  }

  lemma ObjectsOfOne(value: Value)
    ensures Objects([value]) == if value.Object? then [value] else []
  {
    assert DropLast([value]) == [];
  }

  lemma ContextsMean(output: Output)
    ensures var items := NormalizeAll(Objects(output.values));
      && (items != [] ==> ContextOf(output) == items)
      && (items == [] && TextOfOutput(output) == "" ==> ContextOf(output) == [])
      && (items == [] && TextOfOutput(output) != "" ==>
            ContextOf(output) == [Object(BareMessage("assistant", TextContent(TextOfOutput(output)), None))])
    ensures output.outputText.Some? ==> TextOfOutput(output) == output.outputText.value
  {
  }

  // ------------------------------------------------------------------ the code's form

  method NormalizeResponseInput(input: Input) returns (result: seq<Value>)
    ensures result == Normalized(input)
  {
    match input {
      case NoInput =>
        return [];
      case TextInput(text) =>
        return [UserText(text)];
      case ListInput(values) =>
        result := [];
        for i := 0 to |values|
          invariant result == NormalizeAll(values[..i])
        {
          PrefixUnfolds(values, i);
          if values[i].Plain? {
            result := result + [values[i]];
          } else {
            var normalized := Normalize(values[i].item);
            if normalized.Some? {
              result := result + [Object(normalized.value)];
            }
          }
        }
        assert values[..|values|] == values;
      case ObjectInput(item) =>
        var normalized := Normalize(item);
        return if normalized.Some? then [Object(normalized.value)] else [];
      case OtherInput(text) =>
        return [UserText(text)];
    }
  }

  method ResponseText(output: Output) returns (text: string)
    ensures text == TextOfOutput(output)
  {
    if output.outputText.Some? {
      return output.outputText.value;
    }
    text := "";
    for i := 0 to |output.values|
      invariant text == MessageTexts(output.values[..i])
    {
      PrefixUnfolds(output.values, i);
      if output.values[i].Object? && output.values[i].item.TypedMessage? {
        text := text + TextOf(output.values[i].item.content);
      }
    }
    assert output.values[..|output.values|] == output.values;
  }

  method ResponseContext(output: Output) returns (result: seq<Value>)
    ensures result == ContextOf(output)
  {
    result := [];
    for i := 0 to |output.values|
      invariant result == NormalizeAll(Objects(output.values[..i]))
    {
      ghost var before := Objects(output.values[..i]);
      PrefixUnfolds(output.values, i);
      if output.values[i].Plain? {
        assert before + [] == before;
        continue;
      }
      NormalizeOneMore(before, output.values[i]);
      var normalized := Normalize(output.values[i].item);
      if normalized.Some? {
        result := result + [Object(normalized.value)];
      }
    }
    assert output.values[..|output.values|] == output.values;
    if |result| == 0 {
      var text := ResponseText(output);
      if text != "" {
        result := result + [Object(BareMessage("assistant", TextContent(text), None))];
      }
    }
  }

  // ------------------------------------------------------------------ normalizing lists

  lemma {:induction false} NormalizeAllAppends(a: seq<Value>, b: seq<Value>)
    ensures NormalizeAll(a + b) == NormalizeAll(a) + NormalizeAll(b)
  {
    if b == [] {
      assert a + b == a;
      assert NormalizeAll(a) + [] == NormalizeAll(a);
    } else {
      var p, x := DropLast(b), Last(b);
      calc {
        NormalizeAll(a + b);
      ==  { assert a + b == (a + p) + [x]; }
        NormalizeAll((a + p) + [x]);
      ==  { NormalizeOneMore(a + p, x); }
        NormalizeAll(a + p) + NormalizeValue(x);
      ==  { NormalizeAllAppends(a, p); }
        (NormalizeAll(a) + NormalizeAll(p)) + NormalizeValue(x);
      ==
        NormalizeAll(a) + NormalizeAll(b);
      }
    }
  }

  lemma NormalizeOneMore(values: seq<Value>, value: Value)
    ensures NormalizeAll(values + [value]) == NormalizeAll(values) + NormalizeValue(value)
  {
    assert DropLast(values + [value]) == values;
  }

  predicate ObjectsOnly(values: seq<Value>) {
    forall v <- values :: v.Object?
  }

  lemma {:induction false} ObjectsOf(values: seq<Value>)
    ensures ObjectsOnly(NormalizeAll(Objects(values)))
    ensures ObjectsOnly(values) ==> Objects(values) == values
  {
    if values != [] {
      var p := DropLast(values);
      ObjectsOf(p);
      assert values == p + [Last(values)];
      if Last(values).Object? {
        NormalizeOneMore(Objects(p), Last(values));
      } else {
        assert Objects(values) == Objects(p);
      }
    }
  }

  lemma {:induction false} PlainValuesStay(values: seq<Value>)
    ensures ObjectsOnly(values) <==> ObjectsOnly(NormalizeAll(values))
  {
    if values != [] {
      PlainValuesStay(DropLast(values));
      assert values == DropLast(values) + [Last(values)];
      if Last(values).Plain? {
        assert Last(values) in NormalizeAll(values);
      }
    }
  }

  /** A response can be replayed as input: it is then read as the server remembered it. */
  predicate Replayable(output: Output) {
    ObjectsOnly(output.values) && (NormalizeAll(output.values) != [] || TextOfOutput(output) == "")
  }

  /** The remembered context of a response is its output read as input, exactly when the
      output has only objects, and says nothing when no item is left. */
  lemma ReplayedOutputs(output: Output)
    ensures ContextOf(output) == Normalized(ListInput(output.values)) <==> Replayable(output)
  {
    ObjectsOf(output.values);
    PlainValuesStay(output.values);
    if !ObjectsOnly(output.values) {
      assert !ObjectsOnly(NormalizeAll(output.values)) && ObjectsOnly(ContextOf(output));
    }
  }

  /** A value that is not an object is replayed but not remembered. */
  lemma PlainValuesAreForgotten()
    ensures var output := Output("r", "completed", None, [Plain("x")]);
      ContextOf(output) == [] && Normalized(ListInput(output.values)) == [Plain("x")]
  {
    var output := Output("r", "completed", None, [Plain("x")]);
    assert DropLast(output.values) == [] && Objects(output.values) == [];
    assert MessageTexts(output.values) == MessageTexts([]) + "" == "";
  }

  /** A text without items is remembered but not replayed. */
  lemma TextsStandInForItems()
    ensures var output := Output("r", "completed", Some("t"), []);
      ContextOf(output) != [] && Normalized(ListInput(output.values)) == []
  {
  }

  // ------------------------------------------------------------------ normalizing twice

  /** An unnamed call whose own id is an empty string: the one item that changes when it is
      normalized again, since its empty `call_id` is then replaced by a missing one. */
  predicate Unsettled(item: InputItem) {
    item.FunctionCallItem? && item.id == Some("") && (item.callId.None? || item.callId.value == "")
  }

  lemma NormalizingSettles(item: InputItem)
    ensures Normalize(item).Some? ==> (Normalize(Normalize(item).value) == Normalize(item) <==> !Unsettled(item))
  {
  }
}
