/** internal/app/backend.go `collect` and internal/app/server.go `chatCollection`: the
    non-streaming endpoint reads the same events to the end and answers once. */
module ChatCollect {
  import opened Prelude
  import opened ChatTranslation
  import opened ChatStream

  datatype Collection = Collection(completed: Option<Response>, output: seq<Item>, failure: string)

  datatype Outcome<+T> = Answered(value: T) | Refused(detail: string)

  /** The items of `response.output_item.done` events, in arrival order. */
  function DoneItems(es: seq<Event>): seq<Item> {
    if es == [] then []
    else
      DoneItems(DropLast(es)) + match Last(es) case ItemDone(_, Some(item)) => [item] case _ => []
  }

  /** The detail of the latest error event. */
  function Reported(es: seq<Event>): string {
    if es == [] then ""
    else if Last(es).ErrorEvent? then Last(es).detail
    else Reported(DropLast(es))
  }

  /** The event ends its stream: whatever it carries is final. */
  predicate Ends(e: Event) {
    e.Failed? || ((e.Completed? || e.Incomplete?) && e.response.Some?)
  }

  predicate Open(es: seq<Event>) {
    forall e <- es :: !Ends(e)
  }

  function CollectStep(c: Collection, e: Event): Outcome<Collection> {
    match e
    case ItemDone(_, Some(item)) => Answered(c.(output := c.output + [item]))
    case ErrorEvent(detail) => Answered(c.(failure := detail))
    case Completed(response) => Answered(c.(completed := response))
    case Incomplete(response) => Answered(c.(completed := response))
    case Failed(None) => Refused(c.failure)
    case Failed(Some(r)) =>
      Answered(c.(completed := Some(r.(status := "failed", error := if r.error == "" then c.failure else r.error))))
    case _ => Answered(c)
  }

  function CollectRun(es: seq<Event>): Outcome<Collection> {
    if es == [] then Answered(Collection(None, [], ""))
    else match CollectRun(DropLast(es))
      case Answered(c) => CollectStep(c, Last(es))
      case Refused(detail) => Refused(detail)
  }

  function CollectResult(es: seq<Event>, streamError: Option<string>): Outcome<Response> {
    match CollectRun(es)
    case Refused(detail) => Refused(detail)
    case Answered(c) =>
      if streamError.Some? then Refused(streamError.value)
      else if c.completed.None? then Refused(c.failure)
      else if c.completed.value.output == [] then Answered(c.completed.value.(output := c.output))
      else Answered(c.completed.value)
  }

  lemma {:induction false} RefusalStands(es: seq<Event>, i: nat)
    requires i <= |es| && CollectRun(es[..i]).Refused?
    ensures CollectRun(es) == CollectRun(es[..i])
    decreases |es|
  {
    if i == |es| {
      assert es[..i] == es;
    } else {
      assert DropLast(es)[..i] == es[..i];
      RefusalStands(DropLast(es), i);
    }
  }

  /** What collecting keeps of a trace, spelled out: every finished item, in order, and the
      detail of the last error. */
  lemma {:induction false} DoneItemsJoin(a: seq<Event>, b: seq<Event>)
    ensures DoneItems(a + b) == DoneItems(a) + DoneItems(b)
  {
    if b == [] {
      assert a + b == a;
    } else {
      var p := DropLast(b);
      assert DropLast(a + b) == a + p && Last(a + b) == Last(b);
      DoneItemsJoin(a, p);
    }
  }

  lemma DoneItemsOfOne(e: Event)
    ensures DoneItems([e]) == if e.ItemDone? && e.item.Some? then [e.item.value] else []
  {
    assert DropLast([e]) == [] && DoneItems([]) == [];
  }

  lemma {:induction false} ReportedIsTheLast(es: seq<Event>, i: nat)
    requires i < |es| && es[i].ErrorEvent? && forall k :: i < k < |es| ==> !es[k].ErrorEvent?
    ensures Reported(es) == es[i].detail
  {
    if i < |es| - 1 {
      ReportedIsTheLast(DropLast(es), i);
    }
  }

  lemma {:induction false} NothingIsReported(es: seq<Event>)
    requires forall e <- es :: !e.ErrorEvent?
    ensures Reported(es) == ""
  {
    if es != [] {
      NothingIsReported(DropLast(es));
    }
  }

  /** Whatever comes, the last response is the one that is kept: as it is, or marked failed with
      the error reported before it when it has none. */
  lemma {:induction false} LastResponseIsKept(es: seq<Event>, i: nat)
    requires forall e <- es :: e != Failed(None)
    requires i < |es| && (es[i].Completed? || es[i].Incomplete? || es[i].Failed?)
    requires forall k :: i < k < |es| ==> !es[k].Completed? && !es[k].Incomplete? && !es[k].Failed?
    ensures CollectRun(es).Answered? &&
      CollectRun(es).value.completed ==
        match es[i]
        case Failed(Some(r)) =>
          Some(r.(status := "failed", error := if r.error == "" then Reported(es[..i]) else r.error))
        case _ => es[i].response
  {
    var p := DropLast(es);
    assert Last(es) in es && forall e <- p :: e in es;
    if i == |p| {
      assert es[..i] == p;
      CollectingKeeps(p);
    } else {
      assert p[..i] == es[..i] && forall k :: 0 <= k < |p| ==> p[k] == es[k];
      LastResponseIsKept(p, i);
    }
  }

  lemma {:induction false} CollectingKeeps(es: seq<Event>)
    requires forall e <- es :: e != Failed(None)
    ensures CollectRun(es).Answered?
    ensures CollectRun(es).value.output == DoneItems(es) && CollectRun(es).value.failure == Reported(es)
  {
    if es != [] {
      var p := DropLast(es);
      assert Last(es) in es && forall e <- p :: e in es;
      CollectingKeeps(p);
      assert DoneItems(p) + [] == DoneItems(p);
    }
  }

  /** Until the end, collecting keeps the finished items and the latest error. */
  lemma {:induction false} OpenCollects(es: seq<Event>)
    requires Open(es)
    ensures CollectRun(es) == Answered(Collection(None, DoneItems(es), Reported(es)))
  {
    if es != [] {
      var p := DropLast(es);
      assert Last(es) in es && forall e <- p :: e in es;
      OpenCollects(p);
      assert DoneItems(p) + [] == DoneItems(p);
    }
  }

  method Collect(es: seq<Event>, streamError: Option<string>) returns (r: Outcome<Response>)
    ensures r == CollectResult(es, streamError)
  {
    var completed: Option<Response> := None;
    var output: seq<Item> := [];
    var failure := "";
    for i := 0 to |es|
      invariant CollectRun(es[..i]) == Answered(Collection(completed, output, failure))
    {
      PrefixUnfolds(es, i);
      match es[i] {
        case ItemDone(_, item) =>
          if item.Some? {
            output := output + [item.value];
          }
        case ErrorEvent(detail) =>
          failure := detail;
        case Completed(response) =>
          completed := response;
        case Incomplete(response) =>
          completed := response;
        case Failed(response) =>
          completed := response;
          if completed.None? {
            RefusalStands(es, i + 1);
            return Refused(failure);
          }
          completed := Some(completed.value.(status := "failed"));
          if completed.value.error == "" {
            completed := Some(completed.value.(error := failure));
          }
        case _ =>
      }
    }
    assert es[..|es|] == es;
    if streamError.Some? {
      return Refused(streamError.value);
    }
    if completed.None? {
      return Refused(failure);
    }
    if completed.value.output == [] && |output| > 0 {
      completed := Some(completed.value.(output := output));
    }
    r := Answered(completed.value);
  }

  /** The non-streaming endpoint: a failed response is an error, any other is answered. */
  method ChatCompletion(es: seq<Event>, streamError: Option<string>, legacy: bool, n: int)
    returns (r: Outcome<seq<Choice>>)
    ensures match CollectResult(es, streamError)
      case Refused(detail) => r == Refused(detail)
      case Answered(response) =>
        if response.status == "failed" then r == Refused(response.error)
        else
          r.Answered? && |r.value| == (if n < 1 then 1 else n) &&
          forall i :: 0 <= i < |r.value| ==>
            r.value[i] == Choice(i, ExpectedMessage(EnsureResponse(response), legacy),
                                 ExpectedFinish(EnsureResponse(response), legacy))
  {
    var collected := Collect(es, streamError);
    if collected.Refused? {
      return Refused(collected.detail);
    }
    if collected.value.status == "failed" {
      return Refused(collected.value.error);
    }
    var choices := ResponseToChat(EnsureResponse(collected.value), legacy, n);
    r := Answered(choices);
  }
}
