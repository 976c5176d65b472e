/** internal/app/server.go, `createResponse` and the storing of responses: conversations by
    `previous_response_id`. `chains` is bookkeeping of the model: for each id, the exchanges
    from the first turn of its conversation to the one that was answered with that id. */
module Conversation {
  import opened Prelude
  import opened InputItems
  import opened Stores

  datatype Exchange = Exchange(input: Input, output: Output)

  /** What a conversation has said: every input and every answer, in order. */
  function Said(chain: seq<Exchange>): seq<Value> {
    if chain == [] then []
    else Said(DropLast(chain)) + Normalized(Last(chain).input) + ContextOf(Last(chain).output)
  }

  /** What is sent upstream in the last turn. */
  function Effective(chain: seq<Exchange>): seq<Value>
    requires chain != []
  {
    Said(DropLast(chain)) + Normalized(Last(chain).input)
  }

  lemma OneMoreTurn(before: seq<Exchange>, x: Exchange)
    ensures Last(before + [x]) == x && Effective(before + [x]) == Said(before) + Normalized(x.input)
  {
    assert DropLast(before + [x]) == before;
  }

  datatype Created = UnknownPrevious | Answered(sent: seq<Value>)

  class Conversations {
    const responses: ResponseStore
    ghost var chains: map<string, seq<Exchange>>

    /** Every response still stored knows its whole conversation, whatever became of the others. */
    ghost predicate Valid()
      reads this, responses
    {
      && responses.Valid()
      && forall id <- responses.values ::
        && id in chains && chains[id] != []
        && responses.values[id].effectiveInput == Effective(chains[id])
        && responses.values[id].context == Said(chains[id])
    }

    constructor (max: nat)
      ensures Valid() && fresh(responses) && responses.max == max && responses.values == map[] && chains == map[]
    {
      responses := new ResponseStore(max);
      chains := map[];
    }

    /** The first half of a turn: the input sent is everything the conversation has said, even
        when its earlier responses were evicted or deleted, and then the turn's own. */
    method Begin(input: Input, previous: string) returns (created: Created, ghost before: seq<Exchange>)
      requires Valid()
      ensures created.UnknownPrevious? <==> previous != "" && previous !in responses.values
      ensures created.Answered? ==> before == if previous == "" then [] else chains[previous]
      ensures created.Answered? ==> created.sent == Said(before) + Normalized(input)
    {
      var effective := NormalizeResponseInput(input);
      before := [];
      if previous != "" {
        var stored := responses.Get(previous);
        if stored.None? {
          return UnknownPrevious, before;
        }
        effective := stored.value.context + effective;
        before := chains[previous];
      }
      created := Answered(effective);
    }

    /** The second half: the answer is stored with what was sent for it. */
    method Finish(sent: seq<Value>, upstream: Output, ghost chain: seq<Exchange>)
      requires Valid() && chain != [] && Last(chain).output == upstream && sent == Effective(chain)
      modifies this, responses
      ensures Valid() && chains == old(chains)[upstream.id := chain]
      ensures responses.max > 0 ==>
        && upstream.id in responses.values
        && responses.values[upstream.id].effectiveInput == sent
        && responses.order != [] && Last(responses.order) == upstream.id
    {
      hide Agrees, SameIds, Distinct, Without;
      responses.Remember(upstream.id, sent, upstream);
      chains := chains[upstream.id := chain];
      assert responses.max > 0 ==> responses.order[|responses.order| - 1] == upstream.id;
    }

    /** What other requests do while Codex answers: turns are stored, responses deleted and cancelled. */
    method Others()
      requires Valid()
      modifies this, responses
      ensures Valid()
    {
      var steps: int := *;
      while steps > 0
        invariant Valid()
      {
        var id: string := *;
        if * {
          var chain: seq<Exchange> := *;
          if chain != [] {
            Finish(Effective(chain), Last(chain).output, chain);
          }
        } else if * {
          var _ := Delete(id);
        } else {
          var _ := Cancel(id);
        }
        steps := steps - 1;
      }
    }

    /** A turn: `upstream` is what Codex answers, while others use the store. */
    method Create(input: Input, previous: string, upstream: Output)
      returns (created: Created, ghost chain: seq<Exchange>)
      requires Valid()
      modifies this, responses
      ensures Valid()
      ensures created.UnknownPrevious? <==> previous != "" && previous !in old(responses.values)
      ensures created.UnknownPrevious? ==>
        chains == old(chains) && responses.values == old(responses.values) && responses.order == old(responses.order)
      ensures created.Answered? ==>
        && chain == (if previous == "" then [] else old(chains)[previous]) + [Exchange(input, upstream)]
        && created.sent == Effective(chain)
        && upstream.id in chains && chains[upstream.id] == chain
      ensures created.Answered? && responses.max > 0 ==>
        && upstream.id in responses.values
        && responses.values[upstream.id].effectiveInput == created.sent
        && responses.order != [] && Last(responses.order) == upstream.id
    {
      hide Said, Effective, Last, Normalized, Agrees, SameIds, Distinct;
      created, chain := Begin(input, previous);
      if created.UnknownPrevious? {
        return;
      }
      OneMoreTurn(chain, Exchange(input, upstream));
      chain := chain + [Exchange(input, upstream)];
      Others();
      Finish(created.sent, upstream, chain);
    }

    method Delete(id: string) returns (found: bool)
      requires Valid()
      modifies responses
      ensures Valid() && found == (id in old(responses.values)) && responses.values == old(responses.values) - {id}
    {
      found := responses.Delete(id);
    }

    method Cancel(id: string) returns (response: Option<Output>)
      requires Valid()
      modifies responses
      ensures Valid() && responses.values.Keys == old(responses.values.Keys)
    {
      response := responses.Cancel(id);
    }
  }

  // ------------------------------------------------------------------ replaying by hand

  /** The items a client sends for an input when it spells the history out. */
  function Explicit(input: Input): seq<Value> {
    match input
    case NoInput => []
    case TextInput(text) => [UserText(text)]
    case ListInput(values) => values
    case ObjectInput(item) => [Object(item)]
    case OtherInput(text) => [UserText(text)]
  }

  /** The history as one list: inputs and raw outputs, in order. */
  function Spelled(chain: seq<Exchange>): seq<Value> {
    if chain == [] then []
    else Spelled(DropLast(chain)) + Explicit(Last(chain).input) + Last(chain).output.values
  }

  lemma ExplicitReadsBack(input: Input)
    ensures NormalizeAll(Explicit(input)) == Normalized(input)
  {
    match input
    case ListInput(_) =>
    case NoInput =>
    case TextInput(text) => NormalizeOneMore([], UserText(text));
    case OtherInput(text) => NormalizeOneMore([], UserText(text));
    case ObjectInput(item) => NormalizeOneMore([], Object(item));
  }

  /** The history as it is read back. */
  function Replayed(chain: seq<Exchange>): seq<Value> {
    if chain == [] then []
    else Replayed(DropLast(chain)) + Normalized(Last(chain).input) + NormalizeAll(Last(chain).output.values)
  }

  lemma {:induction false} SpelledReadsBack(chain: seq<Exchange>)
    ensures NormalizeAll(Spelled(chain)) == Replayed(chain)
  {
    if chain != [] {
      var p, x := DropLast(chain), Last(chain);
      SpelledReadsBack(p);
      ExplicitReadsBack(x.input);
      NormalizeAllAppends(Spelled(p) + Explicit(x.input), x.output.values);
      NormalizeAllAppends(Spelled(p), Explicit(x.input));
    }
  }

  function Plains(values: seq<Value>): nat {
    if values == [] then 0 else Plains(DropLast(values)) + if Last(values).Plain? then 1 else 0
  }

  lemma {:induction false} PlainsAdd(a: seq<Value>, b: seq<Value>)
    ensures Plains(a + b) == Plains(a) + Plains(b)
  {
    if b == [] {
      assert a + b == a;
    } else {
      assert DropLast(a + b) == a + DropLast(b);
      PlainsAdd(a, DropLast(b));
    }
  }

  lemma {:induction false} NoPlains(values: seq<Value>)
    ensures Plains(values) == 0 <==> ObjectsOnly(values)
  {
    if values != [] {
      NoPlains(DropLast(values));
      assert Last(values) in values && forall v <- DropLast(values) :: v in values;
      assert values == DropLast(values) + [Last(values)];
    }
  }

  /** What one answer adds: the remembered context has no plain values, the replayed output has
      those of the output; and of objects, it has as many, or a text more. */
  lemma AnswersCompare(output: Output)
    ensures Plains(ContextOf(output)) == 0
    ensures Plains(NormalizeAll(output.values)) == 0 <==> ObjectsOnly(output.values)
    ensures ObjectsOnly(output.values) ==> |ContextOf(output)| >= |NormalizeAll(output.values)|
    ensures ObjectsOnly(output.values) ==>
      (|ContextOf(output)| == |NormalizeAll(output.values)| <==> Replayable(output))
  {
    ObjectsOf(output.values);
    PlainValuesStay(output.values);
    NoPlains(ContextOf(output));
    NoPlains(NormalizeAll(output.values));
  }

  ghost predicate ObjectsThroughout(chain: seq<Exchange>) {
    forall x <- chain :: ObjectsOnly(x.output.values)
  }

  ghost predicate ReplayableThroughout(chain: seq<Exchange>) {
    forall x <- chain :: Replayable(x.output)
  }

  /** Over a chain, the replayed history has at least as many plain values, and no more only
      when every output has objects only. */
  lemma {:induction false} PlainsTell(chain: seq<Exchange>)
    ensures Plains(Said(chain)) <= Plains(Replayed(chain))
    ensures Plains(Said(chain)) == Plains(Replayed(chain)) <==> ObjectsThroughout(chain)
  {
    if chain != [] {
      var p, x := DropLast(chain), Last(chain);
      assert chain == p + [x];
      PlainsTell(p);
      AnswersCompare(x.output);
      PlainsAdd(Said(p) + Normalized(x.input), ContextOf(x.output));
      PlainsAdd(Said(p), Normalized(x.input));
      PlainsAdd(Replayed(p) + Normalized(x.input), NormalizeAll(x.output.values));
      PlainsAdd(Replayed(p), Normalized(x.input));
    }
  }

  /** Then it is never longer, and as long only when every answer can be replayed. */
  lemma {:induction false} LengthsTell(chain: seq<Exchange>)
    requires ObjectsThroughout(chain)
    ensures |Replayed(chain)| <= |Said(chain)|
    ensures |Said(chain)| == |Replayed(chain)| <==> ReplayableThroughout(chain)
  {
    if chain != [] {
      var p, x := DropLast(chain), Last(chain);
      assert chain == p + [x] && x in chain && forall y <- p :: y in chain;
      LengthsTell(p);
      AnswersCompare(x.output);
    }
  }

  lemma {:induction false} ReplayableIsSaid(chain: seq<Exchange>)
    requires ReplayableThroughout(chain)
    ensures Said(chain) == Replayed(chain)
  {
    if chain != [] {
      var p, x := DropLast(chain), Last(chain);
      assert chain == p + [x] && x in chain;
      ReplayableIsSaid(p);
      ReplayedOutputs(x.output);
      assert ContextOf(x.output) == NormalizeAll(x.output.values);
      hide ContextOf, NormalizeAll, Normalized;
    }
  }

  /** Continuing by id is the same as sending the whole history, for a conversation of any length,
      exactly when every earlier answer can be replayed. */
  lemma ChainingIsReplaying(chain: seq<Exchange>)
    requires chain != []
    ensures Effective(chain) == Normalized(ListInput(Spelled(DropLast(chain)) + Explicit(Last(chain).input)))
       <==> forall x <- DropLast(chain) :: Replayable(x.output)
  {
    var p, next := DropLast(chain), Normalized(Last(chain).input);
    SpelledReadsBack(p);
    ExplicitReadsBack(Last(chain).input);
    NormalizeAllAppends(Spelled(p), Explicit(Last(chain).input));
    SuffixesCancel(Said(p), Replayed(p), next);
    if Said(p) == Replayed(p) {
      PlainsTell(p);
      LengthsTell(p);
      assert ReplayableThroughout(p);
    } else if ReplayableThroughout(p) {
      ReplayableIsSaid(p);
    }
  }

  lemma SuffixesCancel(a: seq<Value>, b: seq<Value>, c: seq<Value>)
    ensures a + c == b + c <==> a == b
  {
    if a + c == b + c {
      assert |a| == |b|;
      assert a == (a + c)[..|a|] && b == (b + c)[..|b|];
    }
  }
}
