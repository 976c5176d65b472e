/** The streamed answer is the collected answer: assembling the chunks of `streamChat`
    gives what the non-streaming endpoint returns for the same events. */
module ChatRefinement {
  import opened Prelude
  import opened ChatTranslation
  import opened ChatStream
  import opened ChatCollect

  // ------------------------------------------------------------------ reading a trace

  /** The output index of a function call event. */
  function CallIndex(e: Event): Option<int> {
    match e
    case ItemAdded(outputIndex, Some(CallItem(_, _, _, _))) => Some(outputIndex)
    case ArgumentsDelta(outputIndex, _) => Some(outputIndex)
    case ItemDone(outputIndex, Some(CallItem(_, _, _, _))) => Some(outputIndex)
    case _ => None
  }

  /** The output indexes of function calls in the order of their first event. */
  function Appeared(es: seq<Event>): seq<int> {
    if es == [] then []
    else
      var p := Appeared(DropLast(es));
      var c := CallIndex(Last(es));
      if c.None? || c.value in p then p else p + [c.value]
  }

  predicate AddedIn(es: seq<Event>, outputIndex: int) {
    exists e <- es :: e.ItemAdded? && e.outputIndex == outputIndex && e.item.Some? && e.item.value.CallItem?
  }

  predicate DoneIn(es: seq<Event>, outputIndex: int) {
    exists e <- es :: e.ItemDone? && e.outputIndex == outputIndex && e.item.Some? && e.item.value.CallItem?
  }

  /** The argument deltas of one call, joined. */
  function Deltas(es: seq<Event>, outputIndex: int): string {
    if es == [] then ""
    else
      Deltas(DropLast(es), outputIndex) +
      match Last(es) case ArgumentsDelta(o, delta) => (if o == outputIndex then delta else "") case _ => ""
  }

  function DeltaText(es: seq<Event>): string {
    if es == [] then ""
    else DeltaText(DropLast(es)) + match Last(es) case TextDelta(delta) => delta case _ => ""
  }

  function DoneText(e: Event): string {
    match e case ItemDone(_, Some(item)) => ItemText(item) case _ => ""
  }

  /** The first non-empty message that is done before any text delta. */
  function LeadingText(es: seq<Event>): string {
    if es == [] then ""
    else
      var p := DropLast(es);
      if LeadingText(p) != "" then LeadingText(p)
      else if DeltaText(p) == "" then DoneText(Last(es))
      else ""
  }

  function StreamedText(es: seq<Event>): string {
    LeadingText(es) + DeltaText(es)
  }

  function AnswerOf(config: Config, es: seq<Event>, i: nat): Answer {
    AssembleChoice(Run(config, es).frames, i)
  }

  // ------------------------------------------------------------------ assembling frames

  lemma {:induction false} ChoicesApplyOnce(a: Answer, n: nat, delta: Delta, finish: Option<string>, i: nat)
    ensures ApplyChoices(a, seq(n, (k: nat) => ChunkChoice(k, delta, finish)), i)
         == if i < n then ApplyChoice(a, ChunkChoice(i, delta, finish)) else a
  {
    if n > 0 {
      var choices := seq(n, (k: nat) => ChunkChoice(k, delta, finish));
      assert DropLast(choices) == seq(n - 1, (k: nat) => ChunkChoice(k, delta, finish));
      ChoicesApplyOnce(a, n - 1, delta, finish, i);
    }
  }

  lemma ChunkApplies(config: Config, a: Answer, delta: Delta, finish: Option<string>, i: nat)
    requires i < config.n
    ensures AssembleFrom(a, [ChunkOf(config, delta, finish)], i) == ApplyChoice(a, ChunkChoice(i, delta, finish))
  {
    ChoicesApplyOnce(a, config.n, delta, finish, i);
    var frames := [ChunkOf(config, delta, finish)];
    assert DropLast(frames) == [] && AssembleFrom(a, [], i) == a;
  }

  lemma {:induction false} AssembleAppend(a: Answer, x: seq<Frame>, y: seq<Frame>, i: nat)
    ensures AssembleFrom(a, x + y, i) == AssembleFrom(AssembleFrom(a, x, i), y, i)
  {
    if y == [] {
      assert x + y == x;
    } else {
      assert DropLast(x + y) == x + DropLast(y);
      AssembleAppend(a, x, DropLast(y), i);
    }
  }

  /** One more event: the answer grows by the role chunk, if due, and the event's own frames. */
  lemma AnswerGrows(config: Config, es: seq<Event>, i: nat)
    requires i < config.n && es != [] && Run(config, DropLast(es)).failure.None?
    ensures var s := Run(config, DropLast(es)).state;
      var body := BodyStep(config, RoleState(s, Last(es)), Last(es));
      var a := AnswerOf(config, DropLast(es), i);
      var b := if HoldsRole(Last(es)) || s.roleSent then a else a.(role := true);
      && Run(config, es).state == body.state
      && Run(config, es).failure == body.failure
      && AnswerOf(config, es, i) == AssembleFrom(b, body.frames, i)
  {
    var s := Run(config, DropLast(es)).state;
    var frames := Run(config, DropLast(es)).frames;
    var body := BodyStep(config, RoleState(s, Last(es)), Last(es));
    var role := RoleFrames(config, s, Last(es));
    AssembleAppend(BLANK, frames, role + body.frames, i);
    AssembleAppend(AssembleChoice(frames, i), role, body.frames, i);
    ChunkApplies(config, AssembleChoice(frames, i), RoleDelta, None, i);
  }

  /** An event's own frames are at most one chunk, and perhaps the usage after it. */
  lemma FramesApply(config: Config, s: State, e: Event, a: Answer, i: nat)
    requires i < config.n
    ensures var frames := BodyStep(config, s, e).frames;
      if frames == [] then AssembleFrom(a, frames, i) == a
      else
        && frames[0].Chunk? && |frames[0].choices| == config.n
        && AssembleFrom(a, frames, i) == ApplyChoice(a, frames[0].choices[0])
  {
    var frames := BodyStep(config, s, e).frames;
    if frames != [] {
      var delta, finish := frames[0].choices[0].delta, frames[0].choices[0].finish;
      ChunkApplies(config, a, delta, finish, i);
      assert frames[0] == ChunkOf(config, delta, finish);
      if |frames| == 2 {
        assert frames == [frames[0]] + [UsageChunk];
        AssembleAppend(a, [frames[0]], [UsageChunk], i);
        assert DropLast([UsageChunk]) == [];
      } else {
        assert frames == [frames[0]];
      }
    }
  }

  // ------------------------------------------------------------------ the call table, on any trace

  ghost predicate TableMatches(s: State, appeared: seq<int>) {
    && Distinct(appeared)
    && |s.toolCalls| == |appeared|
    && (forall o :: o in s.toolCalls <==> o in appeared)
    && (forall j :: 0 <= j < |appeared| ==> appeared[j] in s.toolCalls && s.toolCalls[appeared[j]].index == j)
  }

  /** Client indexes are a bijection onto 0..k-1 in order of first appearance. */
  lemma {:induction false} IndexesFollowAppearance(config: Config, es: seq<Event>)
    requires Run(config, es).failure.None?
    ensures TableMatches(Run(config, es).state, Appeared(es))
  {
    if es != [] {
      var p := DropLast(es);
      IndexesFollowAppearance(config, p);
      var s := Run(config, p).state;
      assert TableMatches(RoleState(s, Last(es)), Appeared(p));
      TableStep(config, RoleState(s, Last(es)), Last(es), Appeared(p));
    }
  }

  /** An event touches the entry of its own call only, and never renumbers it. */
  lemma EventTouchesItsCall(config: Config, s: State, e: Event)
    ensures var t := BodyStep(config, s, e).state.toolCalls;
      match CallIndex(e)
      case None => t == s.toolCalls
      case Some(o) => o in t && t == s.toolCalls[o := t[o]] && t[o].index == CallFor(s.toolCalls, o).index
  {
  }

  lemma TableGrows(s: State, s': State, o: int, appeared: seq<int>)
    requires TableMatches(s, appeared)
    requires o in s'.toolCalls && s'.toolCalls == s.toolCalls[o := s'.toolCalls[o]]
    requires s'.toolCalls[o].index == CallFor(s.toolCalls, o).index
    ensures TableMatches(s', if o in appeared then appeared else appeared + [o])
  {
    var t := s'.toolCalls;
    var next := if o in appeared then appeared else appeared + [o];
    assert |t| == |next|;
    assert forall x :: x in t <==> x in s.toolCalls || x == o;
    forall j | 0 <= j < |next|
      ensures next[j] in t && t[next[j]].index == j
    {
      if j < |appeared| {
        assert next[j] == appeared[j];
      }
    }
  }

  lemma TableStep(config: Config, s: State, e: Event, appeared: seq<int>)
    requires TableMatches(s, appeared)
    ensures var c := CallIndex(e);
      TableMatches(BodyStep(config, s, e).state,
                   if c.None? || c.value in appeared then appeared else appeared + [c.value])
  {
    var s' := BodyStep(config, s, e).state;
    EventTouchesItsCall(config, s, e);
    if CallIndex(e).Some? {
      TableGrows(s, s', CallIndex(e).value, appeared);
    }
  }

  // ------------------------------------------------------------------ tool arguments, on any trace

  /** What the client holds of call `k`. A legacy client sees one call and no ids. */
  function Seen(config: Config, a: Answer, k: nat): Option<Call> {
    if config.legacy then
      if k == 0 && a.functionCall.Some? then Some(Call("", a.functionCall.value.name, a.functionCall.value.arguments))
      else None
    else if k in a.toolCalls then Some(a.toolCalls[k])
    else None
  }

  /** The arguments a client has joined for call `k`, if it has seen that call. */
  function Received(config: Config, a: Answer, k: nat): Option<string> {
    if Seen(config, a, k).Some? then Some(Seen(config, a, k).value.arguments) else None
  }

  /** The stream's record of what it sent is what the client holds. */
  ghost predicate Faithful(config: Config, s: State, a: Answer) {
    && (forall o <- s.toolCalls :: Visible(config, s.toolCalls[o]) ==>
          && Received(config, a, s.toolCalls[o].index)
             == (if s.toolCalls[o].started then Some(s.toolCalls[o].sent) else None)
          && (s.toolCalls[o].started || s.toolCalls[o].sent == ""))
    && (forall k: nat :: |s.toolCalls| <= k ==> Received(config, a, k) == None)
  }

  /** An `added` event for a call whose arguments have been streamed restarts the record. */
  predicate Resets(config: Config, s: State, e: Event) {
    match e
    case ItemAdded(o, Some(CallItem(_, _, _, _))) =>
      o in s.toolCalls && Visible(config, s.toolCalls[o]) && s.toolCalls[o].sent != ""
    case _ => false
  }

  function TextOr(x: Option<string>): string {
    if x.Some? then x.value else ""
  }

  function DeltaArguments(delta: Delta): string {
    match delta
    case ToolStart(_, _, _, arguments) => arguments
    case ToolArguments(_, arguments) => arguments
    case FunctionStart(_, arguments) => arguments
    case FunctionArguments(arguments) => arguments
    case _ => ""
  }

  /** A start or arguments chunk extends its own call and no other. */
  lemma ChunkShows(config: Config, a: Answer, delta: Delta, i: nat, index: nat, k: nat)
    requires i < config.n && (config.legacy ==> index == 0)
    requires if config.legacy then delta.FunctionArguments? || delta.FunctionStart?
             else (delta.ToolArguments? || delta.ToolStart?) && delta.index == index
    ensures Seen(config, AssembleFrom(a, [ChunkOf(config, delta, None)], i), k) ==
      if k != index then Seen(config, a, k)
      else
        var c := if Seen(config, a, k).Some? then Seen(config, a, k).value else Call("", "", "");
        Some(Call(c.id + (if delta.ToolStart? then delta.id else ""),
                  c.name + (if delta.ToolStart? || delta.FunctionStart? then delta.name else ""),
                  c.arguments + DeltaArguments(delta)))
  {
    ChunkApplies(config, a, delta, None, i);
    assert "" + "" == "";
  }

  lemma OtherEventsWriteNoCall(config: Config, s: State, e: Event)
    requires config.n > 0 && CallIndex(e) == None && BodyStep(config, s, e).frames != []
    ensures var frame := BodyStep(config, s, e).frames[0];
      frame.Chunk? && frame.choices != []
        && (frame.choices[0].delta.ContentDelta? || frame.choices[0].delta.EmptyDelta?)
  {
  }

  /** Chunks other than a call's leave every call alone. */
  lemma OtherEventsKeepCalls(config: Config, s: State, e: Event, a: Answer, i: nat)
    requires i < config.n && CallIndex(e) == None
    ensures var b := AssembleFrom(a, BodyStep(config, s, e).frames, i);
      b.toolCalls == a.toolCalls && b.functionCall == a.functionCall
    ensures BodyStep(config, s, e).state.toolCalls == s.toolCalls
  {
    EventTouchesItsCall(config, s, e);
    FramesApply(config, s, e, a, i);
    if BodyStep(config, s, e).frames != [] {
      OtherEventsWriteNoCall(config, s, e);
    }
  }

  /** One call's record and fragments move together, the others stand still. */
  lemma OneCallMoves(config: Config, s: State, s': State, a: Answer, a': Answer, o: int, appeared: seq<int>)
    requires TableMatches(s, appeared) && Faithful(config, s, a)
    requires o in s'.toolCalls && s'.toolCalls == s.toolCalls[o := s'.toolCalls[o]]
    requires s'.toolCalls[o].index == CallFor(s.toolCalls, o).index
    requires forall k: nat :: k != s'.toolCalls[o].index ==> Received(config, a', k) == Received(config, a, k)
    requires var t := s'.toolCalls[o]; Visible(config, t) ==>
      Received(config, a', t.index) == (if t.started then Some(t.sent) else None) && (t.started || t.sent == "")
    requires !Visible(config, s'.toolCalls[o]) ==> Received(config, a', s'.toolCalls[o].index) == None
    ensures Faithful(config, s', a')
  {
    TableGrows(s, s', o, appeared);
    forall x <- s'.toolCalls | x != o && Visible(config, s'.toolCalls[x])
      ensures Received(config, a', s'.toolCalls[x].index)
           == if s'.toolCalls[x].started then Some(s'.toolCalls[x].sent) else None
    {
      assert s'.toolCalls[x] == s.toolCalls[x];
      var j :| 0 <= j < |appeared| && appeared[j] == x;
      if o in s.toolCalls {
        var h :| 0 <= h < |appeared| && appeared[h] == o;
        assert h != j;
      }
    }
  }

  lemma RecordIsReceived(config: Config, s: State, a: Answer, o: int)
    requires Faithful(config, s, a) && Visible(config, CallFor(s.toolCalls, o))
    ensures var c := CallFor(s.toolCalls, o);
      TextOr(Received(config, a, c.index)) == c.sent && (!c.started ==> Received(config, a, c.index) == None)
  {
  }

  /** What a call event adds to the record is what its chunk carries, unless it restarts the record. */
  lemma RecordExtends(config: Config, s: State, e: Event)
    requires CallIndex(e).Some? && config.n > 0 && BodyStep(config, s, e).frames != []
    requires var c := CallFor(s.toolCalls, CallIndex(e).value); c.started || c.sent == ""
    ensures var o := CallIndex(e).value;
      var c := CallFor(s.toolCalls, o);
      var t := BodyStep(config, s, e).state.toolCalls[o];
      var arguments := DeltaArguments(BodyStep(config, s, e).frames[0].choices[0].delta);
      t.started && if Resets(config, s, e) then t.sent == arguments == "" else t.sent == c.sent + arguments
  {
    var c := CallFor(s.toolCalls, CallIndex(e).value);
    if e.ItemDone? {
      var arguments := e.item.value.arguments;
      if c.started && c.sent <= arguments {
        assert c.sent + arguments[|c.sent|..] == arguments;
      }
    }
  }

  lemma CallEventShows(config: Config, s: State, e: Event, a: Answer, i: nat)
    requires i < config.n && CallIndex(e).Some? && Faithful(config, s, a)
    requires Visible(config, CallFor(s.toolCalls, CallIndex(e).value)) && BodyStep(config, s, e).frames != []
    ensures var c := CallFor(s.toolCalls, CallIndex(e).value);
      var frames := BodyStep(config, s, e).frames;
      forall k: nat :: Received(config, AssembleFrom(a, frames, i), k) ==
        if k == c.index then Some(c.sent + DeltaArguments(frames[0].choices[0].delta)) else Received(config, a, k)
  {
    var c := CallFor(s.toolCalls, CallIndex(e).value);
    var frames := BodyStep(config, s, e).frames;
    var delta := frames[0].choices[0].delta;
    RecordIsReceived(config, s, a, CallIndex(e).value);
    assert frames == [ChunkOf(config, delta, None)];
    forall k: nat
      ensures Received(config, AssembleFrom(a, frames, i), k) ==
        if k == c.index then Some(c.sent + DeltaArguments(delta)) else Received(config, a, k)
    {
      ChunkShows(config, a, delta, i, c.index, k);
    }
  }

  /** `Faithful` survives a call event exactly when the event does not restart the record. */
  lemma CallEventFragments(config: Config, s: State, e: Event, a: Answer, i: nat, appeared: seq<int>)
    requires i < config.n && CallIndex(e).Some?
    requires TableMatches(s, appeared) && Faithful(config, s, a)
    ensures Faithful(config, BodyStep(config, s, e).state, AssembleFrom(a, BodyStep(config, s, e).frames, i))
       <==> !Resets(config, s, e)
  {
    var o := CallIndex(e).value;
    var c := CallFor(s.toolCalls, o);
    var s' := BodyStep(config, s, e).state;
    var frames := BodyStep(config, s, e).frames;
    var a' := AssembleFrom(a, frames, i);
    EventTouchesItsCall(config, s, e);
    if Visible(config, c) {
      RecordIsReceived(config, s, a, o);
      if frames != [] {
        CallEventShows(config, s, e, a, i);
        RecordExtends(config, s, e);
      }
    }
    if !Resets(config, s, e) {
      OneCallMoves(config, s, s', a, a', o, appeared);
    }
  }

  ghost predicate FaithfulThroughout(config: Config, es: seq<Event>, i: nat) {
    Faithful(config, Run(config, es).state, AnswerOf(config, es, i)) &&
    (es != [] ==> FaithfulThroughout(config, DropLast(es), i))
  }

  /** No event so far restarted the record of a call the client sees. */
  predicate NeverResets(config: Config, es: seq<Event>) {
    es != [] ==> NeverResets(config, DropLast(es)) && !Resets(config, Run(config, DropLast(es)).state, Last(es))
  }

  lemma RoleKeepsFragments(config: Config, s: State, a: Answer, e: Event)
    requires Faithful(config, s, a)
    ensures Faithful(config, RoleState(s, e), a.(role := true)) && Faithful(config, RoleState(s, e), a)
  {
    assert forall k: nat :: Received(config, a.(role := true), k) == Received(config, a, k);
  }

  lemma EventFragments(config: Config, s: State, e: Event, a: Answer, i: nat, appeared: seq<int>)
    requires i < config.n && TableMatches(s, appeared) && Faithful(config, s, a)
    ensures Faithful(config, BodyStep(config, s, e).state, AssembleFrom(a, BodyStep(config, s, e).frames, i))
       <==> !Resets(config, s, e)
  {
    if CallIndex(e).Some? {
      CallEventFragments(config, s, e, a, i, appeared);
    } else {
      OtherEventsKeepCalls(config, s, e, a, i);
      var a' := AssembleFrom(a, BodyStep(config, s, e).frames, i);
      assert forall k: nat :: Received(config, a', k) == Received(config, a, k);
    }
  }

  /** The event adds a call. */
  predicate Adds(e: Event) {
    e.ItemAdded? && CallIndex(e).Some?
  }

  /** The event brings arguments of a call. */
  predicate Brings(e: Event, o: int) {
    match e
    case ArgumentsDelta(outputIndex, delta) => outputIndex == o && delta != ""
    case ItemDone(outputIndex, Some(CallItem(_, _, _, arguments))) => outputIndex == o && arguments != ""
    case _ => false
  }

  /** A legacy client sees the call that appeared first, the others all calls. */
  predicate Seeable(config: Config, es: seq<Event>, o: int) {
    config.legacy ==> Appeared(es) != [] && Appeared(es)[0] == o
  }

  /** No call that a client can see is added after arguments of it were brought. */
  ghost predicate NeverRestarts(config: Config, es: seq<Event>) {
    forall i, j :: 0 <= i < j < |es| && Adds(es[j]) && Brings(es[i], CallIndex(es[j]).value) ==>
      !Seeable(config, es, CallIndex(es[j]).value)
  }

  predicate Brought(es: seq<Event>, o: int) {
    exists i :: 0 <= i < |es| && Brings(es[i], o)
  }

  lemma BroughtGrows(es: seq<Event>, o: int)
    requires es != []
    ensures Brought(es, o) <==> Brought(DropLast(es), o) || Brings(Last(es), o)
  {
    if Brought(DropLast(es), o) {
      var i :| 0 <= i < |es| - 1 && Brings(DropLast(es)[i], o);
      assert Brings(es[i], o);
    }
    if Brought(es, o) {
      var i :| 0 <= i < |es| && Brings(es[i], o);
      assert i < |es| - 1 ==> Brings(DropLast(es)[i], o);
    }
  }

  lemma {:induction false} BroughtHaveAppeared(es: seq<Event>, o: int)
    ensures Brought(es, o) ==> o in Appeared(es)
  {
    if es != [] {
      BroughtGrows(es, o);
      BroughtHaveAppeared(DropLast(es), o);
    }
  }

  /** While no record was restarted, it says something exactly when arguments were brought. */
  lemma {:induction false} RecordFollowsTrace(config: Config, es: seq<Event>, o: int)
    requires Run(config, es).failure.None? && NeverResets(config, es)
    ensures var calls := Run(config, es).state.toolCalls;
      o in calls && Visible(config, calls[o]) ==> (calls[o].sent != "" <==> Brought(es, o))
  {
    if es != [] {
      var p, e := DropLast(es), Last(es);
      var s := RoleState(Run(config, p).state, e);
      RecordFollowsTrace(config, p, o);
      BroughtGrows(es, o);
      IndexesFollowAppearance(config, p);
      BroughtHaveAppeared(p, o);
      EventTouchesItsCall(config, s, e);
      if CallIndex(e) == Some(o) && Visible(config, CallFor(s.toolCalls, o)) {
        UnstartedIsSilent(config, p, o);
        RecordSaysSomething(config, s, e);
      }
    }
  }

  lemma {:induction false} UnstartedIsSilent(config: Config, es: seq<Event>, o: int)
    requires Run(config, es).failure.None?
    ensures var calls := Run(config, es).state.toolCalls;
      o in calls && !calls[o].started ==> calls[o].sent == ""
  {
    if es != [] {
      UnstartedIsSilent(config, DropLast(es), o);
      EventTouchesItsCall(config, RoleState(Run(config, DropLast(es)).state, Last(es)), Last(es));
    }
  }

  lemma RecordSaysSomething(config: Config, s: State, e: Event)
    requires CallIndex(e).Some? && Visible(config, CallFor(s.toolCalls, CallIndex(e).value)) && !Resets(config, s, e)
    requires var c := CallFor(s.toolCalls, CallIndex(e).value); c.started || c.sent == ""
    ensures var o := CallIndex(e).value;
      var c := CallFor(s.toolCalls, o);
      BodyStep(config, s, e).state.toolCalls[o].sent != "" <==> c.sent != "" || Brings(e, o)
  {
    if e.ArgumentsDelta? {
      var c := CallFor(s.toolCalls, e.outputIndex);
      assert |c.sent + e.delta| == |c.sent| + |e.delta|;
    }
  }

  /** An index is seeable exactly when its call is visible. */
  lemma SeeableIsVisible(config: Config, s: State, es: seq<Event>, o: int)
    requires TableMatches(s, Appeared(es)) && o in s.toolCalls
    ensures Visible(config, s.toolCalls[o]) <==> Seeable(config, es, o)
  {
    var j :| 0 <= j < |Appeared(es)| && Appeared(es)[j] == o;
  }

  lemma SeeableStays(config: Config, es: seq<Event>, o: int)
    requires es != [] && o in Appeared(DropLast(es))
    ensures Seeable(config, es, o) == Seeable(config, DropLast(es), o)
  {
  }

  lemma NeverRestartsGrows(config: Config, es: seq<Event>)
    requires es != []
    ensures var p, e := DropLast(es), Last(es);
      NeverRestarts(config, es) <==>
        NeverRestarts(config, p) &&
        (Adds(e) && Brought(p, CallIndex(e).value) ==> !Seeable(config, es, CallIndex(e).value))
  {
    var p, e := DropLast(es), Last(es);
    assert forall i :: 0 <= i < |p| ==> p[i] == es[i];
    forall i, j | 0 <= i < j < |p| && Adds(es[j]) && Brings(es[i], CallIndex(es[j]).value)
      ensures Seeable(config, es, CallIndex(es[j]).value) == Seeable(config, p, CallIndex(es[j]).value)
    {
      assert Brought(p, CallIndex(es[j]).value);
      BroughtHaveAppeared(p, CallIndex(es[j]).value);
      SeeableStays(config, es, CallIndex(es[j]).value);
    }
    if NeverRestarts(config, es) {
      forall i, j | 0 <= i < j < |p| && Adds(p[j]) && Brings(p[i], CallIndex(p[j]).value)
        ensures !Seeable(config, p, CallIndex(p[j]).value)
      {
        assert Adds(es[j]) && Brings(es[i], CallIndex(es[j]).value);
      }
      if Adds(e) && Brought(p, CallIndex(e).value) {
        var i :| 0 <= i < |p| && Brings(p[i], CallIndex(e).value);
        assert Brings(es[i], CallIndex(es[|es| - 1]).value);
      }
    }
  }

  /** The machine's resets are the trace's restarts. */
  lemma {:induction false} ResetsAreRestarts(config: Config, es: seq<Event>)
    requires Run(config, es).failure.None?
    ensures NeverResets(config, es) <==> NeverRestarts(config, es)
  {
    if es != [] {
      var p, e := DropLast(es), Last(es);
      ResetsAreRestarts(config, p);
      NeverRestartsGrows(config, es);
      if NeverResets(config, p) && Adds(e) {
        var o, s := CallIndex(e).value, Run(config, p).state;
        RecordFollowsTrace(config, p, o);
        IndexesFollowAppearance(config, p);
        BroughtHaveAppeared(p, o);
        if o in s.toolCalls {
          SeeableIsVisible(config, s, p, o);
          SeeableStays(config, es, o);
        }
      }
    }
  }

  /** The joined fragments of every streamed call equal the record along the whole run exactly
      when no call is added after arguments of it were brought. */
  lemma FragmentsMatchRecord(config: Config, es: seq<Event>, i: nat)
    requires i < config.n && Run(config, es).failure.None?
    ensures FaithfulThroughout(config, es, i) <==> NeverRestarts(config, es)
  {
    FragmentsMatchResets(config, es, i);
    ResetsAreRestarts(config, es);
  }

  lemma {:induction false} FragmentsMatchResets(config: Config, es: seq<Event>, i: nat)
    requires i < config.n && Run(config, es).failure.None?
    ensures FaithfulThroughout(config, es, i) <==> NeverResets(config, es)
  {
    if es != [] {
      var p, e := DropLast(es), Last(es);
      FragmentsMatchResets(config, p, i);
      if FaithfulThroughout(config, p, i) {
        var before, a := Run(config, p).state, AnswerOf(config, p, i);
        var s := RoleState(before, e);
        var b := if HoldsRole(e) || before.roleSent then a else a.(role := true);
        AnswerGrows(config, es, i);
        RoleKeepsFragments(config, before, a, e);
        assert TableMatches(s, Appeared(p)) by {
          IndexesFollowAppearance(config, p);
        }
        assert Resets(config, s, e) == Resets(config, before, e);
        EventFragments(config, s, e, b, i, Appeared(p));
      }
    }
  }

  /** Each call is added before its arguments: the order Codex sends them in. */
  predicate AddedFirst(es: seq<Event>) {
    es != [] ==>
      AddedFirst(DropLast(es)) &&
      match Last(es)
      case ItemAdded(o, Some(CallItem(_, _, _, _))) => Deltas(DropLast(es), o) == "" && !DoneIn(DropLast(es), o)
      case _ => true
  }

  lemma DoneInGrows(es: seq<Event>, o: int)
    requires es != []
    ensures DoneIn(es, o) <==> DoneIn(DropLast(es), o) || (Last(es).ItemDone? && CallIndex(Last(es)) == Some(o))
  {
    assert es == DropLast(es) + [Last(es)];
  }

  lemma AddedInGrows(es: seq<Event>, o: int)
    requires es != []
    ensures AddedIn(es, o) <==> AddedIn(DropLast(es), o) || (Last(es).ItemAdded? && CallIndex(Last(es)) == Some(o))
  {
    assert es == DropLast(es) + [Last(es)];
  }

  lemma {:induction false} RecordHasASource(config: Config, es: seq<Event>, o: int)
    requires Run(config, es).failure.None?
    ensures var calls := Run(config, es).state.toolCalls;
      o in calls && calls[o].sent != "" ==> Deltas(es, o) != "" || DoneIn(es, o)
  {
    if es != [] {
      var p, e := DropLast(es), Last(es);
      RecordHasASource(config, p, o);
      DoneInGrows(es, o);
      EventTouchesItsCall(config, RoleState(Run(config, p).state, e), e);
    }
  }

  lemma {:induction false} AddedFirstNeverResets(config: Config, es: seq<Event>)
    requires AddedFirst(es) && Run(config, es).failure.None?
    ensures NeverResets(config, es)
  {
    if es != [] {
      AddedFirstNeverResets(config, DropLast(es));
      if Last(es).ItemAdded? {
        RecordHasASource(config, DropLast(es), Last(es).outputIndex);
      }
    }
  }

  /** Calls that are added before their arguments are never restarted. */
  lemma AddedFirstNeverRestarts(config: Config, es: seq<Event>)
    requires AddedFirst(es) && Run(config, es).failure.None?
    ensures NeverRestarts(config, es)
  {
    AddedFirstNeverResets(config, es);
    ResetsAreRestarts(config, es);
  }

  /** Added, given arguments and added again: the record restarts and the client's copy does not. */
  lemma RestartedCallDiffers()
    ensures var call := CallItem("c", "", "f", "");
      var es := [ItemAdded(0, Some(call)), ArgumentsDelta(0, "x"), ItemAdded(0, Some(call))];
      Run(PLAIN, es).failure == None && !FaithfulThroughout(PLAIN, es, 0)
  {
    var call := CallItem("c", "", "f", "");
    var one: seq<Event> := [ItemAdded(0, Some(call))];
    var two := [ItemAdded(0, Some(call)), ArgumentsDelta(0, "x")];
    var es := [ItemAdded(0, Some(call)), ArgumentsDelta(0, "x"), ItemAdded(0, Some(call))];
    assert DropLast(es) == two && DropLast(two) == one && DropLast(one) == [];
    assert Run(PLAIN, one).failure == None && Run(PLAIN, two).failure == None;
    assert Adds(es[2]) && Brings(es[1], 0) && Seeable(PLAIN, es, 0);
    FragmentsMatchRecord(PLAIN, es, 0);
  }

  /** The final item completes the arguments when what was sent begins them, and leaves
      the client's copy alone when it does not; repeating it sends nothing. */
  lemma DoneDelivers(config: Config, s: State, a: Answer, o: int, item: Item, i: nat)
    requires i < config.n && item.CallItem? && Visible(config, CallFor(s.toolCalls, o))
    requires Faithful(config, s, a)
    ensures var c := CallFor(s.toolCalls, o);
      var r := BodyStep(config, s, ItemDone(o, Some(item)));
      var a' := AssembleFrom(a, r.frames, i);
      && (if c.sent <= item.arguments then Received(config, a', c.index) == Some(item.arguments)
          else a' == a && Received(config, a', c.index) == Some(c.sent))
      && BodyStep(config, r.state, ItemDone(o, Some(item))).frames == []
  {
    var e := ItemDone(o, Some(item));
    var c := CallFor(s.toolCalls, o);
    var frames := BodyStep(config, s, e).frames;
    RecordIsReceived(config, s, a, o);
    if frames != [] {
      RecordExtends(config, s, e);
      var delta := frames[0].choices[0].delta;
      assert frames == [ChunkOf(config, delta, None)];
      ChunkShows(config, a, delta, i, c.index, c.index);
    }
  }

  // ------------------------------------------------------------------ well-formed traces

  predicate SameHead(a: Item, b: Item)
    requires a.CallItem? && b.CallItem?
  {
    a.name == b.name && CallId(a) == CallId(b)
  }

  /** `e` may follow `es` when the final output's calls are `items`, numbered by `order`. */
  ghost predicate Expected(es: seq<Event>, e: Event, order: seq<int>, items: seq<Item>)
    requires |order| == |items| && forall item <- items :: item.CallItem?
  {
    match e
    case ItemAdded(o, Some(item)) =>
      item.CallItem? ==>
        o !in Appeared(es) && forall j :: 0 <= j < |order| && order[j] == o ==> SameHead(item, items[j])
    case ArgumentsDelta(o, _) => AddedIn(es, o) && !DoneIn(es, o)
    case ItemDone(o, Some(item)) =>
      item.CallItem? ==> forall j :: 0 <= j < |order| && order[j] == o ==> item == items[j]
    case _ => Quiet(e)
  }

  ghost predicate WellFormed(es: seq<Event>, order: seq<int>, items: seq<Item>)
    requires |order| == |items| && forall item <- items :: item.CallItem?
  {
    es != [] ==> WellFormed(DropLast(es), order, items) && Expected(DropLast(es), Last(es), order, items)
  }

  /** Before the final event: calls began in output order, all are done, and every
      argument delta was part of the final arguments. */
  ghost predicate Complete(es: seq<Event>, order: seq<int>, items: seq<Item>)
    requires |order| == |items|
    requires forall item <- items :: item.CallItem?
  {
    && Appeared(es) == order
    && (forall o <- order :: DoneIn(es, o))
    && (forall j :: 0 <= j < |order| ==> Deltas(es, order[j]) <= items[j].arguments)
  }

  predicate Quiet(e: Event) {
    !e.ErrorEvent? && !e.Completed? && !e.Incomplete? && !e.Failed?
  }

  lemma QuietEventsPass(config: Config, s: State, e: Event)
    requires Quiet(e)
    ensures BodyStep(config, s, e).failure.None?
  {
  }

  lemma {:induction false} WellFormedNeverFails(config: Config, es: seq<Event>, order: seq<int>, items: seq<Item>)
    requires |order| == |items| && (forall item <- items :: item.CallItem?) && WellFormed(es, order, items)
    ensures Run(config, es).failure.None?
  {
    if es != [] {
      WellFormedNeverFails(config, DropLast(es), order, items);
      QuietEventsPass(config, RoleState(Run(config, DropLast(es)).state, Last(es)), Last(es));
    }
  }

  lemma {:induction false} AddedHaveAppeared(es: seq<Event>, o: int)
    ensures AddedIn(es, o) || DoneIn(es, o) ==> o in Appeared(es)
  {
    if es != [] {
      AddedHaveAppeared(DropLast(es), o);
      AddedInGrows(es, o);
      DoneInGrows(es, o);
    }
  }

  // ------------------------------------------------------------------ tool calls of a well-formed trace

  function SentSoFar(es: seq<Event>, o: int, item: Item): string
    requires item.CallItem?
  {
    if DoneIn(es, o) then item.arguments else Deltas(es, o)
  }

  function StreamedCall(config: Config, item: Item, k: nat, arguments: string): Call
    requires item.CallItem?
  {
    Call(if config.legacy then "" else StreamedId(item, k), item.name, arguments)
  }

  /** Progress of the first `|appeared|` calls, as recorded and as received. */
  ghost predicate Tracks(config: Config, es: seq<Event>, s: State, a: Answer, order: seq<int>, items: seq<Item>)
    requires |Appeared(es)| <= |order| == |items| && forall item <- items :: item.CallItem?
  {
    && (forall j: nat :: j < |Appeared(es)| && (config.legacy ==> j == 0) ==>
          && order[j] in s.toolCalls
          && s.toolCalls[order[j]] == ToolCall(j, true, SentSoFar(es, order[j], items[j]))
          && Seen(config, a, j) == Some(StreamedCall(config, items[j], j, SentSoFar(es, order[j], items[j]))))
    && (forall k: nat :: |Appeared(es)| <= k || (config.legacy && k > 0) ==> Seen(config, a, k) == None)
  }

  lemma {:induction false} UnseenHasNoDeltas(es: seq<Event>, o: int)
    requires o !in Appeared(es)
    ensures Deltas(es, o) == ""
  {
    if es != [] {
      UnseenHasNoDeltas(DropLast(es), o);
    }
  }

  /** A call event of a well-formed trace concerns call number `j`, which the stream numbers `j`. */
  lemma CallNumber(config: Config, es: seq<Event>, order: seq<int>) returns (j: nat)
    requires es != [] && CallIndex(Last(es)).Some? && Appeared(es) <= order
    requires Run(config, DropLast(es)).failure.None?
    ensures j < |Appeared(es)| && order[j] == CallIndex(Last(es)).value
    ensures j < |Appeared(DropLast(es))| <==> order[j] in Appeared(DropLast(es))
    ensures order[j] !in Appeared(DropLast(es)) ==> j == |Appeared(DropLast(es))|
    ensures CallFor(Run(config, DropLast(es)).state.toolCalls, order[j]).index == j
    ensures order[j] in Run(config, DropLast(es)).state.toolCalls <==> order[j] in Appeared(DropLast(es))
  {
    var o := CallIndex(Last(es)).value;
    var p := Appeared(DropLast(es));
    IndexesFollowAppearance(config, DropLast(es));
    if o in p {
      j :| 0 <= j < |p| && p[j] == o;
    } else {
      j := |p|;
    }
  }

  /** The delta that takes a call further by `rest`: a start the first time. */
  function CallDelta(config: Config, item: Item, j: nat, first: bool, rest: string): Delta
    requires item.CallItem?
  {
    if first then StartDelta(config, item, j, rest)
    else if config.legacy then FunctionArguments(rest)
    else ToolArguments(j, rest)
  }

  lemma CallIsShown(config: Config, a: Answer, i: nat, item: Item, j: nat, first: bool, before: string, rest: string,
                    k: nat)
    requires i < config.n && (config.legacy ==> j == 0) && item.CallItem? && (first ==> before == "")
    requires Seen(config, a, j) == if first then None else Some(StreamedCall(config, item, j, before))
    ensures Seen(config, AssembleFrom(a, [ChunkOf(config, CallDelta(config, item, j, first, rest), None)], i), k)
         == if k == j then Some(StreamedCall(config, item, j, before + rest)) else Seen(config, a, k)
  {
    ChunkShows(config, a, CallDelta(config, item, j, first, rest), i, j, k);
    var c := StreamedCall(config, item, j, rest);
    assert c.id + "" == c.id && c.name + "" == c.name;
    assert "" + c.id == c.id && "" + c.name == c.name && "" + rest == rest;
  }

  /** What one event of call `j` writes: nothing, or the chunk that adds `rest`. */
  ghost predicate Writes(config: Config, r: StepResult, o: int, item: Item, j: nat, first: bool, before: string,
                         rest: string)
    requires item.CallItem?
  {
    && o in r.state.toolCalls && r.state.toolCalls[o] == ToolCall(j, true, before + rest)
    && (r.frames == [ChunkOf(config, CallDelta(config, item, j, first, rest), None)] ||
        (r.frames == [] && !first && rest == ""))
  }

  lemma AddedWrites(config: Config, s: State, o: int, item: Item, target: Item, j: nat)
    requires item.CallItem? && target.CallItem? && SameHead(item, target) && (config.legacy ==> j == 0)
    requires CallFor(s.toolCalls, o) == ToolCall(j, false, "")
    ensures Writes(config, AddedStep(config, s, o, item), o, target, j, true, "", "")
  {
  }

  lemma ArgumentsWrite(config: Config, s: State, o: int, target: Item, j: nat, before: string, rest: string)
    requires target.CallItem? && (config.legacy ==> j == 0)
    requires CallFor(s.toolCalls, o) == ToolCall(j, true, before)
    ensures Writes(config, ArgumentsStep(config, s, o, rest), o, target, j, false, before, rest)
  {
  }

  lemma DoneWrites(config: Config, s: State, o: int, item: Item, j: nat, first: bool, before: string)
    requires item.CallItem? && (config.legacy ==> j == 0)
    requires CallFor(s.toolCalls, o) == ToolCall(j, !first, before)
    requires before <= item.arguments && (first ==> before == "")
    ensures Writes(config, CallDoneStep(config, s, o, item), o, item, j, first, before, item.arguments[|before|..])
  {
    assert before + item.arguments[|before|..] == item.arguments;
  }

  /** One visible call event: `before` becomes what the trace has now sent. */
  lemma CallEventWrites(config: Config, es: seq<Event>, s: State, j: nat, order: seq<int>, items: seq<Item>)
    returns (rest: string)
    requires es != [] && (config.legacy ==> j == 0)
    requires j < |order| == |items| && forall item <- items :: item.CallItem?
    requires CallIndex(Last(es)) == Some(order[j]) && Expected(DropLast(es), Last(es), order, items)
    requires Deltas(DropLast(es), order[j]) <= items[j].arguments
    requires CallFor(s.toolCalls, order[j]) ==
      if order[j] in Appeared(DropLast(es)) then ToolCall(j, true, SentSoFar(DropLast(es), order[j], items[j]))
      else ToolCall(j, false, "")
    ensures var p, o := DropLast(es), order[j];
      var before := if o in Appeared(p) then SentSoFar(p, o, items[j]) else "";
      && Writes(config, BodyStep(config, s, Last(es)), o, items[j], j, o !in Appeared(p), before, rest)
      && before + rest == SentSoFar(es, o, items[j])
  {
    var e, o, p := Last(es), order[j], DropLast(es);
    var first := o !in Appeared(p);
    DoneInGrows(es, o);
    AddedHaveAppeared(p, o);
    if first {
      UnseenHasNoDeltas(p, o);
    }
    var before := if first then "" else SentSoFar(p, o, items[j]);
    match e {
      case ItemAdded(_, Some(item)) =>
        AddedWrites(config, s, o, item, items[j], j);
        rest := "";
      case ArgumentsDelta(_, delta) =>
        ArgumentsWrite(config, s, o, items[j], j, before, delta);
        rest := delta;
      case ItemDone(_, Some(item)) =>
        var s' := s.(outputs := s.outputs + [item]);
        DoneWrites(config, s', o, item, j, first, before);
        rest := item.arguments[|before|..];
        assert before + rest == item.arguments;
    }
  }

  /** Hypotheses of the induction: a prefix of a complete trace. */
  ghost predicate OnTheWay(es: seq<Event>, order: seq<int>, items: seq<Item>)
    requires |order| == |items|
    requires forall item <- items :: item.CallItem?
  {
    && WellFormed(es, order, items) && Distinct(order) && Appeared(es) <= order
    && forall j :: 0 <= j < |order| ==> Deltas(es, order[j]) <= items[j].arguments
  }

  lemma EarlierIsOnTheWay(es: seq<Event>, order: seq<int>, items: seq<Item>)
    requires es != [] && |order| == |items| && (forall item <- items :: item.CallItem?) && OnTheWay(es, order, items)
    ensures OnTheWay(DropLast(es), order, items)
  {
    forall j | 0 <= j < |order|
      ensures Deltas(DropLast(es), order[j]) <= items[j].arguments
    {
      assert Deltas(DropLast(es), order[j]) <= Deltas(es, order[j]);
    }
  }

  lemma OtherCallsStay(es: seq<Event>, o: int, item: Item)
    requires es != [] && CallIndex(Last(es)) != Some(o) && item.CallItem?
    ensures SentSoFar(es, o, item) == SentSoFar(DropLast(es), o, item)
  {
    DoneInGrows(es, o);
  }

  lemma SameCallsTrack(config: Config, es: seq<Event>, s: State, a: Answer, es': seq<Event>, s': State, a': Answer,
                       order: seq<int>, items: seq<Item>)
    requires |Appeared(es)| <= |order| == |items| && (forall item <- items :: item.CallItem?)
    requires Tracks(config, es, s, a, order, items)
    requires s'.toolCalls == s.toolCalls && a'.toolCalls == a.toolCalls && a'.functionCall == a.functionCall
    requires Appeared(es') == Appeared(es)
    requires forall j: nat :: j < |order| ==> SentSoFar(es', order[j], items[j]) == SentSoFar(es, order[j], items[j])
    ensures Tracks(config, es', s', a', order, items)
  {
    assert forall k: nat :: Seen(config, a', k) == Seen(config, a, k);
  }

  lemma {:induction false} CallsAreTracked(config: Config, es: seq<Event>, i: nat, order: seq<int>, items: seq<Item>)
    requires i < config.n && |order| == |items| && (forall item <- items :: item.CallItem?)
      && OnTheWay(es, order, items)
    ensures Tracks(config, es, Run(config, es).state, AnswerOf(config, es, i), order, items)
  {
    if es != [] {
      var p, e := DropLast(es), Last(es);
      EarlierIsOnTheWay(es, order, items);
      CallsAreTracked(config, p, i, order, items);
      WellFormedNeverFails(config, p, order, items);
      AnswerGrows(config, es, i);
      var s := RoleState(Run(config, p).state, e);
      var a := AnswerOf(config, p, i);
      var b := if HoldsRole(e) || Run(config, p).state.roleSent then a else a.(role := true);
      SameCallsTrack(config, p, Run(config, p).state, a, p, s, b, order, items);
      if CallIndex(e).None? {
        OtherEventsKeepCalls(config, s, e, b, i);
        forall j: nat | j < |order| {
          OtherCallsStay(es, order[j], items[j]);
        }
        SameCallsTrack(config, p, s, b, es, Run(config, es).state, AnswerOf(config, es, i), order, items);
      } else {
        CallEventTracked(config, es, s, b, i, order, items);
      }
    }
  }

  lemma CallEventTracked(config: Config, es: seq<Event>, s: State, a: Answer, i: nat, order: seq<int>, items: seq<Item>)
    requires i < config.n && es != [] && |order| == |items| && (forall item <- items :: item.CallItem?)
    requires OnTheWay(es, order, items) && CallIndex(Last(es)).Some? && Run(config, DropLast(es)).failure.None?
    requires s.toolCalls == Run(config, DropLast(es)).state.toolCalls
    requires OnTheWay(DropLast(es), order, items) && Tracks(config, DropLast(es), s, a, order, items)
    ensures var r := BodyStep(config, s, Last(es));
      Tracks(config, es, r.state, AssembleFrom(a, r.frames, i), order, items)
  {
    var p := DropLast(es);
    var r := BodyStep(config, s, Last(es));
    var a' := AssembleFrom(a, r.frames, i);
    var h := CallNumber(config, es, order);
    EventTouchesItsCall(config, s, Last(es));
    if config.legacy && h > 0 {
      assert a' == a;
    } else {
      var first := order[h] !in Appeared(p);
      var before := if first then "" else SentSoFar(p, order[h], items[h]);
      var rest := CallEventWrites(config, es, s, h, order, items);
      if r.frames == [] {
        assert before + rest == before;
      } else {
        forall k: nat {
          CallIsShown(config, a, i, items[h], h, first, before, rest, k);
        }
      }
      assert Seen(config, a', h) == Some(StreamedCall(config, items[h], h, SentSoFar(es, order[h], items[h])));
      assert forall k: nat :: k != h ==> Seen(config, a', k) == Seen(config, a, k);
    }
    forall j: nat | j < |Appeared(es)| && j != h
      ensures j < |Appeared(p)| && SentSoFar(es, order[j], items[j]) == SentSoFar(p, order[j], items[j])
    {
      assert order[j] != order[h];
      OtherCallsStay(es, order[j], items[j]);
    }
  }

  // ------------------------------------------------------------------ text

  function TextOf(delta: Delta): string {
    match delta case ContentDelta(text) => text case _ => ""
  }

  /** The text an event writes: its delta, or the message it finishes while none was shown. */
  function EventText(s: State, e: Event): string {
    match e
    case TextDelta(delta) => delta
    case _ => if s.sawText then "" else DoneText(e)
  }

  lemma BodyOutputs(config: Config, s: State, e: Event)
    ensures var r := BodyStep(config, s, e);
      && r.state.roleSent == s.roleSent
      && r.state.outputs == s.outputs + DoneItems([e])
      && r.state.sawText == (s.sawText || EventText(s, e) != "")
  {
    assert DropLast([e]) == [] && DoneItems([]) == [];
  }

  lemma BodyDelta(config: Config, s: State, e: Event)
    requires config.n > 0
    ensures var frames := BodyStep(config, s, e).frames;
      if frames == [] then EventText(s, e) == ""
      else
        && frames[0].Chunk? && frames[0].choices != []
        && frames[0].choices[0].delta != RoleDelta && TextOf(frames[0].choices[0].delta) == EventText(s, e)
  {
  }

  lemma DeltaWrites(a: Answer, c: ChunkChoice)
    requires c.delta != RoleDelta
    ensures ApplyChoice(a, c).role == a.role && ApplyChoice(a, c).content == a.content + TextOf(c.delta)
  {
    assert a.content + "" == a.content;
  }

  lemma BodyText(config: Config, s: State, a: Answer, e: Event, i: nat)
    requires i < config.n
    ensures var b := AssembleFrom(a, BodyStep(config, s, e).frames, i);
      b.role == a.role && b.content == a.content + EventText(s, e)
  {
    var frames := BodyStep(config, s, e).frames;
    FramesApply(config, s, e, a, i);
    BodyDelta(config, s, e);
    if frames == [] {
      assert a.content + "" == a.content;
    } else {
      DeltaWrites(a, frames[0].choices[0]);
    }
  }

  lemma StreamedTextGrows(es: seq<Event>)
    requires es != []
    ensures var t := StreamedText(DropLast(es));
      StreamedText(es)
        == t + match Last(es) case TextDelta(delta) => delta case e => if t != "" then "" else DoneText(e)
  {
    var p, e := DropLast(es), Last(es);
    if e.TextDelta? {
      assert LeadingText(es) == LeadingText(p);
      assert LeadingText(p) + (DeltaText(p) + e.delta) == (LeadingText(p) + DeltaText(p)) + e.delta;
    } else {
      assert DeltaText(es) == DeltaText(p) + "" == DeltaText(p);
      if LeadingText(p) != "" || DeltaText(p) != "" {
        assert LeadingText(es) == LeadingText(p);
        assert StreamedText(p) + "" == StreamedText(p);
      } else {
        assert LeadingText(es) == DoneText(e) && DoneText(e) + "" == "" + DoneText(e);
      }
    }
  }

  lemma DoneItemsGrow(es: seq<Event>)
    requires es != []
    ensures DoneItems(es) == DoneItems(DropLast(es)) + DoneItems([Last(es)])
  {
    assert DropLast([Last(es)]) == [] && DoneItems([]) == [];
  }

  /** On any trace that has not failed, the client's text is the leading message, if one
      came before the deltas, followed by the deltas. */
  lemma {:induction false} TextIsStreamed(config: Config, es: seq<Event>, i: nat)
    requires i < config.n && Run(config, es).failure.None?
    ensures var s, a := Run(config, es).state, AnswerOf(config, es, i);
      && a.content == StreamedText(es)
      && (s.sawText <==> StreamedText(es) != "")
      && s.outputs == DoneItems(es)
      && a.role == s.roleSent
  {
    if es != [] {
      var p, e := DropLast(es), Last(es);
      TextIsStreamed(config, p, i);
      var s := RoleState(Run(config, p).state, e);
      var a := AnswerOf(config, p, i);
      var b := if HoldsRole(e) || Run(config, p).state.roleSent then a else a.(role := true);
      AnswerGrows(config, es, i);
      BodyText(config, s, b, e, i);
      BodyOutputs(config, s, e);
      StreamedTextGrows(es);
      DoneItemsGrow(es);
    }
  }

  /** The non-empty message texts of an output. */
  function Texts(output: seq<Item>): seq<string> {
    if output == [] then []
    else Texts(DropLast(output)) + if ItemText(Last(output)) == "" then [] else [ItemText(Last(output))]
  }

  lemma {:induction false} TextsSpellTheMessages(output: seq<Item>)
    ensures Texts(output) == [] ==> MessagesText(output) == ""
    ensures Texts(output) != [] ==>
      Texts(output)[0] != "" && Texts(output)[0] <= MessagesText(output) &&
      (MessagesText(output) == Texts(output)[0] <==> |Texts(output)| == 1)
  {
    if output != [] {
      TextsSpellTheMessages(DropLast(output));
    }
  }

  lemma {:induction false} LeadingTextIsFirst(es: seq<Event>)
    requires DeltaText(es) == ""
    ensures LeadingText(es) == if Texts(DoneItems(es)) == [] then "" else Texts(DoneItems(es))[0]
  {
    if es != [] {
      LeadingTextIsFirst(DropLast(es));
      var p, e := DoneItems(DropLast(es)), Last(es);
      TextsSpellTheMessages(p);
      assert DoneItems(es) == p + if e.ItemDone? && e.item.Some? then [e.item.value] else [];
      hide DoneItems, DeltaText;
      if e.ItemDone? && e.item.Some? {
        OneMoreText(p, e.item.value);
        hide Texts, MessagesText;
      } else {
        assert p + [] == p;
      }
    }
  }

  lemma OneMoreText(output: seq<Item>, item: Item)
    ensures Texts(output + [item]) == Texts(output) + if ItemText(item) == "" then [] else [ItemText(item)]
  {
    assert DropLast(output + [item]) == output;
  }

  /** Without text deltas, the stream shows one message: it agrees with the collected text
      exactly when the output has at most one that says anything. */
  lemma SilentMessagesAgree(es: seq<Event>, output: seq<Item>)
    requires DeltaText(es) == "" && Texts(DoneItems(es)) == Texts(output)
    ensures StreamedText(es) == MessagesText(output) <==> |Texts(output)| <= 1
  {
    LeadingTextIsFirst(es);
    TextsSpellTheMessages(output);
    assert LeadingText(es) + "" == LeadingText(es);
  }

  /** The text deltas spell the messages and come before any message is done, or there are
      none and at most one message says anything. */
  predicate TextSpelled(es: seq<Event>, response: Response) {
    && response.outputText.None?
    && ((LeadingText(es) == "" && DeltaText(es) == MessagesText(response.output)) ||
        (DeltaText(es) == "" && Texts(DoneItems(es)) == Texts(response.output) && |Texts(response.output)| <= 1))
  }

  // ------------------------------------------------------------------ the refinement

  ghost predicate SameAnswer(a: Answer, message: Message, finish: string) {
    && a.role
    && a.content == TextOr(message.content)
    && (forall j: nat :: j in a.toolCalls <==> j < |message.toolCalls|)
    && (forall j: nat :: j in a.toolCalls ==> a.toolCalls[j] == message.toolCalls[j])
    && a.functionCall == message.functionCall
    && a.finish == Some(finish)
  }

  /** The response `collect` returns for a trace that ends with `response`. */
  function Final(es: seq<Event>, response: Response): Response {
    if response.output == [] then response.(output := DoneItems(es)) else response
  }

  predicate AllNamed(items: seq<Item>)
    requires forall item <- items :: item.CallItem?
  {
    forall item <- items :: CallId(item) != ""
  }

  lemma FramesFollowTheMode(config: Config, s: State, e: Event)
    requires config.n > 0 && BodyStep(config, s, e).frames != []
    ensures var frame := BodyStep(config, s, e).frames[0];
      && frame.Chunk? && frame.choices != []
      && var delta := frame.choices[0].delta;
         if config.legacy then !delta.ToolStart? && !delta.ToolArguments?
         else !delta.FunctionStart? && !delta.FunctionArguments?
  {
  }

  predicate InMode(config: Config, a: Answer) {
    if config.legacy then a.toolCalls == map[] else a.functionCall == None
  }

  lemma EventKeepsMode(config: Config, s: State, e: Event, a: Answer, i: nat)
    requires i < config.n && InMode(config, a)
    ensures InMode(config, AssembleFrom(a, BodyStep(config, s, e).frames, i))
  {
    FramesApply(config, s, e, a, i);
    if BodyStep(config, s, e).frames != [] {
      FramesFollowTheMode(config, s, e);
    }
  }

  /** Legacy streams write no tool calls, the others no function call. */
  lemma {:induction false} ModeIsKept(config: Config, es: seq<Event>, i: nat)
    requires i < config.n && Run(config, es).failure.None?
    ensures InMode(config, AnswerOf(config, es, i))
  {
    if es != [] {
      var p, e := DropLast(es), Last(es);
      ModeIsKept(config, p, i);
      AnswerGrows(config, es, i);
      var s, a := Run(config, p).state, AnswerOf(config, p, i);
      EventKeepsMode(config, RoleState(s, e), e, if HoldsRole(e) || s.roleSent then a else a.(role := true), i);
    }
  }

  lemma TerminalApplies(config: Config, s: State, response: Response, a: Answer, i: nat)
    requires i < config.n && response.status != "failed"
    ensures var r := TerminalStep(config, s, Some(response));
      && r.failure == None
      && AssembleFrom(a, r.frames, i)
         == a.(finish := Some(ExpectedFinish(Effective(response, s.outputs), config.legacy)))
  {
    var finish := Some(ExpectedFinish(Effective(response, s.outputs), config.legacy));
    var chunk := ChunkOf(config, EmptyDelta, finish);
    ChunkApplies(config, a, EmptyDelta, finish, i);
    if config.includeUsage {
      AssembleAppend(a, [chunk], [UsageChunk], i);
      assert DropLast([UsageChunk]) == [];
    } else {
      assert [chunk] + [] == [chunk];
    }
  }

  /** What the final event adds to the trace: the finish reason and nothing else. */
  lemma FinalEvent(config: Config, es: seq<Event>, last: Event, response: Response, i: nat)
    requires i < config.n && Run(config, es).failure.None?
    requires last == Completed(Some(response)) || last == Incomplete(Some(response))
    requires response.status != "failed"
    ensures Run(config, es + [last]).failure.None?
    ensures AnswerOf(config, es + [last], i) == AnswerOf(config, es, i).(
      role := true,
      finish := Some(ExpectedFinish(EnsureResponse(Final(es, response)), config.legacy)))
  {
    var all := es + [last];
    assert DropLast(all) == es && Last(all) == last;
    var before, a := Run(config, es).state, AnswerOf(config, es, i);
    assert before.outputs == DoneItems(es) && a.role == before.roleSent by {
      TextIsStreamed(config, es, i);
    }
    hide Run, AnswerOf, AssembleFrom, BodyStep, TerminalStep, RoleState, DoneItems, HoldsRole, ExpectedFinish,
      Effective, Final;
    AnswerGrows(config, all, i);
    FinalStep(config, before, es, last, response);
    var s := RoleState(before, last);
    TerminalApplies(config, s, response, if before.roleSent then a else a.(role := true), i);
  }

  /** The last chunk tells every choice why the answer ended, and the usage follows when it was
      asked for. */
  ghost predicate LastChunkTells(config: Config, frames: seq<Frame>, response: Response) {
    var k := |frames| - (if config.includeUsage then 2 else 1);
    && 0 <= k && frames[k].Chunk? && (config.includeUsage ==> frames[k + 1] == UsageChunk)
    && |frames[k].choices| == config.n
    && forall i :: 0 <= i < config.n ==>
         var c := frames[k].choices[i];
         c.index == i && c.delta == EmptyDelta && c.finish.Some? && Finishes(c.finish.value, response, config.legacy)
  }

  lemma StreamsTellTheirEnd(config: Config, es: seq<Event>, last: Event, response: Response)
    requires Run(config, es).failure.None?
    requires last == Completed(Some(response)) || last == Incomplete(Some(response))
    requires response.status != "failed"
    ensures LastChunkTells(config, Run(config, es + [last]).frames, Final(es, response))
  {
    var all, s := es + [last], Run(config, es).state;
    assert DropLast(all) == es && Last(all) == last;
    FinishedItemsAreKept(config, es);
    FinalStep(config, s, es, last, response);
    var final := TerminalStep(config, RoleState(s, last), Some(response)).frames;
    var before := Run(config, es).frames + RoleFrames(config, s, last);
    assert Run(config, all).frames == before + final;
    hide *;
    TerminalTells(config, RoleState(s, last), response, Final(es, response));
    EarlierFramesMatterNot(config, before, final, Final(es, response));
  }

  lemma EarlierFramesMatterNot(config: Config, before: seq<Frame>, frames: seq<Frame>, response: Response)
    requires LastChunkTells(config, frames, response)
    ensures LastChunkTells(config, before + frames, response)
  {
    assert forall k :: 0 <= k < |frames| ==> (before + frames)[|before| + k] == frames[k];
  }

  lemma TerminalTells(config: Config, s: State, response: Response, final: Response)
    requires response.status != "failed" && Effective(response, s.outputs) == EnsureResponse(final)
    ensures LastChunkTells(config, TerminalStep(config, s, Some(response)).frames, final)
  {
    ExpectationsTell(EnsureResponse(final), config.legacy);
    var finish := ExpectedFinish(EnsureResponse(final), config.legacy);
    assert Finishes(finish, final, config.legacy);
    hide ExpectedFinish, Finishes;
    var chunk := ChunkOf(config, EmptyDelta, Some(finish));
    assert config.includeUsage || [chunk] + [] == [chunk];
  }

  lemma {:induction false} FinishedItemsAreKept(config: Config, es: seq<Event>)
    requires Run(config, es).failure.None?
    ensures Run(config, es).state.outputs == DoneItems(es)
  {
    if es != [] {
      FinishedItemsAreKept(config, DropLast(es));
      BodyOutputs(config, RoleState(Run(config, DropLast(es)).state, Last(es)), Last(es));
    }
  }

  /** Of the events a stream gets to, all are lifecycle or failure events. */
  ghost predicate OnlyHeld(config: Config, es: seq<Event>) {
    forall j :: 0 <= j < |es| && Reached(config, es, j) ==> es[j].Lifecycle? || es[j].ErrorEvent? || es[j].Failed?
  }

  predicate Reached(config: Config, es: seq<Event>, j: nat)
    requires j <= |es|
  {
    Run(config, es[..j]).failure.None?
  }

  lemma OnlyHeldGrows(config: Config, es: seq<Event>)
    requires es != []
    ensures var p, e := DropLast(es), Last(es);
      OnlyHeld(config, es) <==>
        OnlyHeld(config, p) && (Run(config, p).failure.None? ==> e.Lifecycle? || e.ErrorEvent? || e.Failed?)
  {
    hide Run;
    var p := DropLast(es);
    assert es[..|p|] == p && forall j :: 0 <= j < |p| ==> es[j] == p[j] && es[..j] == p[..j];
    assert Reached(config, es, |p|) == Run(config, p).failure.None?;
    assert forall j :: 0 <= j < |p| ==> Reached(config, es, j) == Reached(config, p, j);
  }

  /** Nothing is written exactly while that is so: a failure can then still be an HTTP error. */
  lemma {:induction false} RoleIsHeld(config: Config, es: seq<Event>)
    requires config.n > 0
    ensures Run(config, es).frames == [] <==> OnlyHeld(config, es)
  {
    if es != [] {
      var p, e := DropLast(es), Last(es);
      RoleIsHeld(config, p);
      RoleComesFirst(config, p);
      OnlyHeldGrows(config, es);
      var before := Run(config, p);
      assert Run(config, es).frames
          == before.frames + if before.failure.Some? then [] else Step(config, before.state, e).frames;
      HeldEventsWriteNothing(config, before.state, e);
      hide Run, Step, OnlyHeld;
    }
  }

  lemma HeldEventsWriteNothing(config: Config, s: State, e: Event)
    ensures Step(config, s, e).frames == [] ==> e.Lifecycle? || e.ErrorEvent? || e.Failed? || s.roleSent
    ensures e.Lifecycle? || e.ErrorEvent? || e.Failed? ==> Step(config, s, e).frames == []
  {
  }

  lemma FinalStep(config: Config, before: State, es: seq<Event>, last: Event, response: Response)
    requires last == Completed(Some(response)) || last == Incomplete(Some(response))
    requires before.outputs == DoneItems(es)
    ensures var s := RoleState(before, last);
      && !HoldsRole(last) && BodyStep(config, s, last) == TerminalStep(config, s, Some(response))
      && Effective(response, s.outputs) == EnsureResponse(Final(es, response))
  {
  }

  lemma {:induction false} WellFormedIsOpen(es: seq<Event>, order: seq<int>, items: seq<Item>)
    requires |order| == |items| && (forall item <- items :: item.CallItem?) && WellFormed(es, order, items)
    ensures Open(es) && Reported(es) == ""
  {
    if es != [] {
      WellFormedIsOpen(DropLast(es), order, items);
      assert es == DropLast(es) + [Last(es)];
    }
  }

  /** The client's copy of every call, once the trace is complete. */
  lemma CallsArriveWhole(config: Config, es: seq<Event>, i: nat, order: seq<int>, items: seq<Item>, k: nat)
    requires i < config.n && |order| == |items| && (forall item <- items :: item.CallItem?)
    requires Distinct(order) && WellFormed(es, order, items) && Complete(es, order, items)
    ensures Seen(config, AnswerOf(config, es, i), k) ==
      if k < |items| && (config.legacy ==> k == 0) then Some(StreamedCall(config, items[k], k, items[k].arguments))
      else None
  {
    CallsAreTracked(config, es, i, order, items);
    if k < |items| {
      assert order[k] in order && DoneIn(es, order[k]);
    }
  }

  /** The calls agree, up to the id an unnamed call is given. */
  lemma CallsAgree(config: Config, a: Answer, response: Response)
    requires InMode(config, a)
    requires var items := CallItems(response.output); forall k: nat ::
      Seen(config, a, k) ==
        if k < |items| && (config.legacy ==> k == 0) then Some(StreamedCall(config, items[k], k, items[k].arguments))
        else None
    ensures var m := ExpectedMessage(response, config.legacy);
      && a.functionCall == m.functionCall
      && (forall k: nat :: k in a.toolCalls <==> k < |m.toolCalls|)
      && ((forall k: nat :: k in a.toolCalls ==> a.toolCalls[k] == m.toolCalls[k])
          <==> config.legacy || AllNamed(CallItems(response.output)))
  {
    var items := CallItems(response.output);
    var m := ExpectedMessage(response, config.legacy);
    assert Seen(config, a, 0) == Seen(config, a, 0);
    if !config.legacy {
      forall k: nat
        ensures k in a.toolCalls <==> k < |items|
        ensures k < |items| ==> (a.toolCalls[k] == m.toolCalls[k] <==> CallId(items[k]) != "")
      {
        assert Seen(config, a, k).Some? <==> k in a.toolCalls;
      }
      if AllNamed(items) {
        assert forall k: nat :: k in a.toolCalls ==> a.toolCalls[k] == m.toolCalls[k];
      } else {
        var k :| 0 <= k < |items| && CallId(items[k]) == "";
        assert k in a.toolCalls;
      }
    }
  }

  lemma TextAgrees(es: seq<Event>, response: Response, legacy: bool)
    requires TextSpelled(es, response)
    ensures StreamedText(es) == TextOr(ExpectedMessage(response, legacy).content)
  {
    if LeadingText(es) == "" && DeltaText(es) == MessagesText(response.output) {
      assert "" + DeltaText(es) == DeltaText(es);
    } else {
      SilentMessagesAgree(es, response.output);
    }
  }

  lemma CollectingEnds(es: seq<Event>, last: Event, response: Response, order: seq<int>, items: seq<Item>)
    requires |order| == |items| && (forall item <- items :: item.CallItem?) && WellFormed(es, order, items)
    requires last == Completed(Some(response)) || last == Incomplete(Some(response))
    ensures CollectResult(es + [last], None) == Answered(Final(es, response))
  {
    WellFormedIsOpen(es, order, items);
    OpenCollects(es);
    assert DropLast(es + [last]) == es;
  }

  /** A text, calls and a finish reason that agree make the same answer. */
  lemma PartsAgree(config: Config, es: seq<Event>, response: Response, a: Answer)
    requires TextSpelled(es, response)
    requires a.role && a.content == StreamedText(es) && a.finish == Some(ExpectedFinish(response, config.legacy))
    requires InMode(config, a)
    requires var items := CallItems(response.output); forall k: nat ::
      Seen(config, a, k) ==
        if k < |items| && (config.legacy ==> k == 0) then Some(StreamedCall(config, items[k], k, items[k].arguments))
        else None
    ensures SameAnswer(a, ExpectedMessage(response, config.legacy), ExpectedFinish(response, config.legacy))
       <==> config.legacy || AllNamed(CallItems(response.output))
  {
    TextAgrees(es, response, config.legacy);
    CallsAgree(config, a, response);
  }

  lemma FinalAnswer(config: Config, es: seq<Event>, response: Response, order: seq<int>, i: nat, a: Answer)
    requires i < config.n && Run(config, es).failure.None?
    requires |order| == |CallItems(response.output)| && Distinct(order)
    requires WellFormed(es, order, CallItems(response.output))
    requires Complete(es, order, CallItems(response.output))
    requires TextSpelled(es, response)
    requires a == AnswerOf(config, es, i).(role := true, finish := Some(ExpectedFinish(response, config.legacy)))
    ensures SameAnswer(a, ExpectedMessage(response, config.legacy), ExpectedFinish(response, config.legacy))
       <==> config.legacy || AllNamed(CallItems(response.output))
  {
    var items, b := CallItems(response.output), AnswerOf(config, es, i);
    assert b.content == StreamedText(es) by {
      TextIsStreamed(config, es, i);
    }
    ModeIsKept(config, es, i);
    forall k: nat
      ensures Seen(config, a, k) ==
        if k < |items| && (config.legacy ==> k == 0) then Some(StreamedCall(config, items[k], k, items[k].arguments))
        else None
    {
      CallsArriveWhole(config, es, i, order, items, k);
      assert Seen(config, a, k) == Seen(config, b, k);
    }
    PartsAgree(config, es, response, a);
  }

  /** Streaming refines non-streaming. On a well-formed trace that ends with a response,
      the non-streaming endpoint answers `Final(es, response)`, and every streamed choice
      assembles to that answer's message and finish reason, exactly when each call shown
      with an id has one of its own: an unnamed call is streamed as `call_k` but answered
      with an empty id. */
  lemma StreamingRefinesCollecting(config: Config, es: seq<Event>, last: Event, response: Response, order: seq<int>,
                                   i: nat)
    requires i < config.n
    requires last == Completed(Some(response)) || last == Incomplete(Some(response))
    requires response.status != "failed"
    requires |order| == |CallItems(Final(es, response).output)| && Distinct(order)
    requires WellFormed(es, order, CallItems(Final(es, response).output))
    requires Complete(es, order, CallItems(Final(es, response).output))
    requires TextSpelled(es, Final(es, response))
    ensures Run(config, es + [last]).failure.None?
    ensures CollectResult(es + [last], None) == Answered(Final(es, response))
    ensures SameAnswer(AnswerOf(config, es + [last], i),
                       ExpectedMessage(EnsureResponse(Final(es, response)), config.legacy),
                       ExpectedFinish(EnsureResponse(Final(es, response)), config.legacy))
       <==> config.legacy || AllNamed(CallItems(Final(es, response).output))
  {
    var items := CallItems(Final(es, response).output);
    WellFormedNeverFails(config, es, order, items);
    CollectingEnds(es, last, response, order, items);
    FinalEvent(config, es, last, response, i);
    FinalAnswer(config, es, EnsureResponse(Final(es, response)), order, i, AnswerOf(config, es + [last], i));
  }

  /** What the non-streaming endpoint refuses with, if it refuses. */
  function Refusal(es: seq<Event>): Option<string> {
    match CollectResult(es, None)
    case Refused(detail) => Some(detail)
    case Answered(response) => if response.status == "failed" then Some(response.error) else None
  }

  /** The detail of the first error event: the one a stream fails with. */
  function FirstError(es: seq<Event>): Option<string> {
    if es == [] then None
    else if FirstError(DropLast(es)).Some? then FirstError(DropLast(es))
    else if Last(es).ErrorEvent? then Some(Last(es).detail)
    else None
  }

  lemma {:induction false} OpenStreamFails(config: Config, es: seq<Event>)
    requires Open(es)
    ensures Run(config, es).failure == FirstError(es)
  {
    if es != [] {
      var p := DropLast(es);
      assert Last(es) in es && forall e <- p :: e in es;
      OpenStreamFails(config, p);
    }
  }

  /** What collecting refuses with when `last` ends the trace: a failure's own error, or the
      latest one reported before it. */
  function EndSays(es: seq<Event>, last: Event): Option<string>
    requires Ends(last)
  {
    match last
    case Failed(Some(response)) => Some(if response.error == "" then Reported(es) else response.error)
    case Failed(None) => Some(Reported(es))
    case _ => if last.response.value.status == "failed" then Some(last.response.value.error) else None
  }

  lemma CollectingRefuses(es: seq<Event>, last: Event)
    requires Open(es) && Ends(last)
    ensures Refusal(es + [last]) == EndSays(es, last)
  {
    assert DropLast(es + [last]) == es && Last(es + [last]) == last;
    OpenCollects(es);
    var c := Collection(None, DoneItems(es), Reported(es));
    assert CollectRun(es + [last]) == CollectStep(c, last);
  }

  lemma StreamEnds(config: Config, es: seq<Event>, last: Event)
    requires Open(es) && Ends(last)
    ensures FirstError(es).Some? ==> Run(config, es + [last]).failure == FirstError(es)
    ensures FirstError(es).None? ==> Run(config, es + [last]).failure == EndSays(es, last)
  {
    assert DropLast(es + [last]) == es && Last(es + [last]) == last;
    OpenStreamFails(config, es);
    if FirstError(es).None? {
      NothingReported(es);
    }
  }

  lemma {:induction false} NothingReported(es: seq<Event>)
    requires FirstError(es).None?
    ensures Reported(es) == ""
  {
    if es != [] {
      NothingReported(DropLast(es));
    }
  }

  /** The first error event is the first one. */
  lemma {:induction false} FirstErrorIsTheFirst(es: seq<Event>, i: nat)
    requires i < |es| && es[i].ErrorEvent? && forall k :: 0 <= k < i ==> !es[k].ErrorEvent?
    ensures FirstError(es) == Some(es[i].detail)
  {
    if i < |es| - 1 {
      FirstErrorIsTheFirst(DropLast(es), i);
    } else {
      NoErrorIsNone(DropLast(es));
    }
  }

  lemma {:induction false} NoErrorIsNone(es: seq<Event>)
    requires forall e <- es :: !e.ErrorEvent?
    ensures FirstError(es) == None
  {
    if es != [] {
      NoErrorIsNone(DropLast(es));
    }
  }

  /** Without error events before it, a response is an error for both clients exactly when it
      failed: by its event or by its status. */
  lemma FailedResponsesAreErrors(config: Config, es: seq<Event>, last: Event, response: Response)
    requires Open(es) && forall e <- es :: !e.ErrorEvent?
    requires last == Completed(Some(response)) || last == Incomplete(Some(response)) || last == Failed(Some(response))
    ensures var error := if last.Failed? || response.status == "failed" then Some(response.error) else None;
      Run(config, es + [last]).failure == error && Refusal(es + [last]) == error
  {
    NoErrorIsNone(es);
    NothingReported(es);
    StreamEnds(config, es, last);
    CollectingRefuses(es, last);
  }

  /** When a trace ends, both clients are told the same, exactly when no error event came before
      the end or its detail is what the end says: a stream fails at the first error event, while
      collecting waits for the authoritative end. */
  lemma FailuresAgree(config: Config, es: seq<Event>, last: Event)
    requires Open(es) && Ends(last)
    ensures Run(config, es + [last]).failure == Refusal(es + [last])
       <==> FirstError(es) == None || FirstError(es) == EndSays(es, last)
  {
    StreamEnds(config, es, last);
    CollectingRefuses(es, last);
  }

  /** When a trace stops without an end, after error events or with an error of the stream. */
  lemma UnfinishedFailuresAgree(config: Config, es: seq<Event>, streamError: Option<string>)
    requires Open(es) && (FirstError(es).Some? || streamError.Some?)
    ensures var streamed := if Run(config, es).failure.Some? then Run(config, es).failure else streamError;
      && CollectResult(es, streamError).Refused?
      && (streamed == Some(CollectResult(es, streamError).detail)
          <==> FirstError(es) == None ||
               FirstError(es) == if streamError.Some? then streamError else Some(Reported(es)))
  {
    OpenStreamFails(config, es);
    OpenCollects(es);
  }

  /** An error event before a failure: the stream says the one, the answer the other. */
  lemma EarlyErrorHidesTheFailure(config: Config)
    ensures var es := [ErrorEvent("early")];
      var last := Failed(Some(Response("failed", "", None, [], "authoritative")));
      && Run(config, es + [last]).failure == Some("early")
      && Refusal(es + [last]) == Some("authoritative")
  {
    OneError(config, "early", Failed(Some(Response("failed", "", None, [], "authoritative"))));
  }

  /** An error event before a response: the stream fails and the answer does not. */
  lemma EarlyErrorFailsTheStreamOnly(config: Config)
    ensures var es := [ErrorEvent("early")];
      var last := Completed(Some(Response("completed", "", None, [], "")));
      Run(config, es + [last]).failure == Some("early") && Refusal(es + [last]) == None
  {
    OneError(config, "early", Completed(Some(Response("completed", "", None, [], ""))));
  }

  lemma OneError(config: Config, detail: string, last: Event)
    requires Ends(last)
    ensures Run(config, [ErrorEvent(detail)] + [last]).failure == Some(detail)
    ensures Refusal([ErrorEvent(detail)] + [last]) == EndSays([ErrorEvent(detail)], last)
  {
    var es := [ErrorEvent(detail)];
    assert DropLast(es) == [] && FirstError([]) == None && FirstError(es) == Some(detail);
    StreamEnds(config, es, last);
    CollectingRefuses(es, last);
  }

  /** Nothing is written before the role chunk, so a failure before it can still be an
      HTTP error; the role chunk is the first frame and is written once. */
  lemma {:induction false} RoleComesFirst(config: Config, es: seq<Event>)
    requires config.n > 0
    ensures var r := Run(config, es);
      && (r.state.roleSent <==> r.frames != [])
      && (r.frames != [] ==> r.frames[0] == ChunkOf(config, RoleDelta, None))
      && (forall k :: 1 <= k < |r.frames| ==> r.frames[k] != ChunkOf(config, RoleDelta, None))
  {
    if es != [] {
      var p, e := DropLast(es), Last(es);
      RoleComesFirst(config, p);
      var s := RoleState(Run(config, p).state, e);
      BodyOutputs(config, s, e);
      BodyWritesNoRole(config, s, e);
    }
  }

  lemma BodyWritesNoRole(config: Config, s: State, e: Event)
    requires config.n > 0
    ensures var frames := BodyStep(config, s, e).frames;
      && (HoldsRole(e) ==> frames == [])
      && forall k :: 0 <= k < |frames| ==> frames[k] != ChunkOf(config, RoleDelta, None)
  {
    var role := ChunkOf(config, RoleDelta, None);
    assert role.choices[0].delta == RoleDelta;
    forall frame <- BodyStep(config, s, e).frames
      ensures frame != role
    {
      if frame.Chunk? {
        assert frame.choices[0].delta != RoleDelta;
      }
    }
  }

  // ------------------------------------------------------------------ where the two differ

  const PLAIN := Config(false, 1, false)

  /** The trace of one finished call, sent without deltas, is complete. */
  lemma OneCallTrace(call: Item)
    requires call.CallItem?
    ensures var es := [ItemDone(0, Some(call))];
      && CallItems([call]) == [call]
      && WellFormed(es, [0], [call]) && Complete(es, [0], [call])
      && TextSpelled(es, Response("completed", "", None, [call], ""))
  {
    var es := [ItemDone(0, Some(call))];
    assert DropLast(es) == [] && DropLast([call]) == [];
    assert CallItems([call]) == CallItems([]) + [call];
    assert MessagesText([call]) == MessagesText([]) + "";
    assert Appeared([]) == [];
    assert WellFormed([], [0], [call]) && Expected([], es[0], [0], [call]);
    assert DoneIn(es, 0) by {
      assert es[0] in es;
    }
    assert Deltas(es, 0) == Deltas([], 0) + "";
    assert DeltaText(es) == DeltaText([]) + "";
    assert LeadingText([]) == "";
  }

  /** A call without `call_id` and `id`: streamed as `call_0`, answered with an empty id. */
  lemma UnnamedCallDiffers()
    ensures var call := CallItem("", "", "f", "{}");
      var es := [ItemDone(0, Some(call))];
      var response := Response("completed", "", None, [call], "");
      && WellFormed(es, [0], [call]) && Complete(es, [0], [call]) && TextSpelled(es, response)
      && !SameAnswer(AnswerOf(PLAIN, es + [Completed(Some(response))], 0),
                     ExpectedMessage(response, false), ExpectedFinish(response, false))
  {
    var call := CallItem("", "", "f", "{}");
    var es := [ItemDone(0, Some(call))];
    var response := Response("completed", "", None, [call], "");
    OneCallTrace(call);
    assert call in [call];
    StreamingRefinesCollecting(PLAIN, es, Completed(Some(response)), response, [0], 0);
  }

  /** Two finished messages and no text deltas: the stream shows the first, the answer both. */
  lemma TwoSilentMessagesDiffer()
    ensures var a, b := MessageItem([OutputText("a")]), MessageItem([OutputText("b")]);
      var es := [ItemDone(0, Some(a)), ItemDone(1, Some(b))];
      DeltaText(es) == "" && StreamedText(es) != MessagesText(DoneItems(es))
  {
    var a, b := MessageItem([OutputText("a")]), MessageItem([OutputText("b")]);
    var first := [ItemDone(0, Some(a))];
    var es := [ItemDone(0, Some(a)), ItemDone(1, Some(b))];
    assert DropLast(es) == first && DropLast(first) == [];
    assert DeltaText(es) == DeltaText([]);
    DoneItemsGrow(first);
    DoneItemsGrow(es);
    assert DoneItems(es) == [a, b] && DropLast([a, b]) == [a] && DropLast([a]) == [];
    assert DropLast(a.parts) == [] && DropLast(b.parts) == [];
    assert ItemText(a) == "a" && ItemText(b) == "b";
    assert Texts([a]) == Texts([]) + ["a"] && Texts([a, b]) == Texts([a]) + ["b"];
    SilentMessagesAgree(es, DoneItems(es));
  }
}
