/** internal/app/server.go, `streamResponse`: the Responses API stream passes events through,
    numbers them, completes the final response and stores it once. What it stores is what the
    non-streaming endpoint stores for the same events. */
module ResponseStream {
  import opened Prelude
  import opened ChatTranslation
  import opened ChatStream
  import opened ChatCollect

  /** An event as Codex sent it, perhaps numbered. */
  datatype Upstream = Upstream(event: Event, number: Option<int>)

  datatype Sent = SentEvent(event: Event, number: int) | SentError(detail: string, number: int) | SentDone

  datatype Progress = Progress(outputs: seq<Item>, stored: Option<Response>, written: seq<Sent>)

  // ------------------------------------------------------------------ specification

  function FinalOf(e: Event): Option<Response> {
    match e
    case Completed(response) => response
    case Incomplete(response) => response
    case Failed(response) => response
    case _ => None
  }

  function WithFinal(e: Event, response: Response): Event {
    match e
    case Completed(_) => Completed(Some(response))
    case Incomplete(_) => Incomplete(Some(response))
    case Failed(_) => Failed(Some(response))
    case _ => e
  }

  /** The items that are done, and the response with them. */
  function Items(es: seq<Upstream>): seq<Item> {
    DoneItems(Events(es))
  }

  function Events(es: seq<Upstream>): seq<Event> {
    seq(|es|, i requires 0 <= i < |es| => es[i].event)
  }

  /** What the client is sent for event `k` of a stream. */
  function Passed(es: seq<Upstream>, k: nat): Sent
    requires k < |es|
  {
    var e := es[k].event;
    SentEvent(if FinalOf(e).Some? then WithFinal(e, Effective(FinalOf(e).value, Items(es[..k]))) else e,
              if es[k].number.Some? then es[k].number.value else k)
  }

  /** The first final response, completed. */
  function FirstFinal(es: seq<Upstream>): Option<Response> {
    if es == [] then None
    else if FirstFinal(DropLast(es)).Some? then FirstFinal(DropLast(es))
    else
      var final := FinalOf(Last(es).event);
      if final.Some? then Some(Effective(final.value, Items(DropLast(es)))) else None
  }

  // ------------------------------------------------------------------ the code's form

  lemma LastEvent(es: seq<Upstream>, k: nat)
    requires k < |es|
    ensures DropLast(Events(es[..k + 1])) == Events(es[..k]) && Last(Events(es[..k + 1])) == es[k].event
  {
  }

  /** The callback and what follows it: a stream that fails before its first event is an HTTP error. */
  method StreamResponse(es: seq<Upstream>, streamError: Option<string>)
    returns (httpError: Option<string>, stored: Option<Response>, written: seq<Sent>)
    ensures stored == FirstFinal(es)
    ensures httpError == if es == [] then streamError else None
    ensures httpError.Some? ==> written == []
    ensures httpError.None? ==>
      && |written| == |es| + (if streamError.Some? then 2 else 1)
      && (forall k :: 0 <= k < |es| ==> written[k] == Passed(es, k))
      && (streamError.Some? ==> written[|es|] == SentError(streamError.value, |es|))
      && Last(written) == SentDone
  {
    var outputs: seq<Item> := [];
    stored, written := None, [];
    for i := 0 to |es|
      invariant outputs == Items(es[..i]) && stored == FirstFinal(es[..i])
      invariant |written| == i && forall k :: 0 <= k < i ==> written[k] == Passed(es, k)
    {
      PrefixUnfolds(es, i);
      LastEvent(es, i);
      var e := es[i].event;
      var final := FinalOf(e);
      assert e.ItemDone? ==> final.None?;
      if e.ItemDone? && e.item.Some? {
        outputs := outputs + [e.item.value];
      }
      if final.Some? {
        var response := final.value;
        if response.output == [] && outputs != [] {
          response := response.(output := outputs);
        }
        response := EnsureResponse(response);
        e := WithFinal(e, response);
        if stored.None? {
          stored := Some(response);
        }
      }
      written := written + [SentEvent(e, if es[i].number.Some? then es[i].number.value else i)];
    }
    assert es[..|es|] == es;
    if streamError.Some? {
      if |es| == 0 {
        return streamError, stored, [];
      }
      written := written + [SentError(streamError.value, |es|)];
    }
    httpError, written := None, written + [SentDone];
  }

  /** Spelled out: an event keeps its number or is given its place, and is passed on as it came;
      but a final response is sent with the finished items when it has none, and is said to be
      completed when it has no status. */
  lemma PassedOn(es: seq<Upstream>, k: nat)
    requires k < |es|
    ensures var sent, e := Passed(es, k), es[k].event;
      && sent.SentEvent? && sent.number == (match es[k].number case Some(n) => n case None => k)
      && if !(e.Completed? || e.Incomplete? || e.Failed?) || e.response.None? then sent.event == e
         else
           var was := e.response.value;
           var sends := was.(
             output := if was.output == [] then DoneItems(Events(es[..k])) else was.output,
             status := if was.status == "" then "completed" else was.status);
           && sent.event == (if e.Completed? then Completed(Some(sends))
                             else if e.Incomplete? then Incomplete(Some(sends)) else Failed(Some(sends)))
  {
  }

  /** The response that is stored is the first one that was sent. */
  lemma {:induction false} FirstIsStored(es: seq<Upstream>, k: nat)
    requires k < |es| && FinalOf(es[k].event).Some? && forall j :: 0 <= j < k ==> FinalOf(es[j].event).None?
    ensures FirstFinal(es) == FinalOf(Passed(es, k).event)
  {
    if k == |es| - 1 {
      NoneIsStored(DropLast(es));
      assert es[..k] == DropLast(es);
    } else {
      assert DropLast(es)[..k] == es[..k];
      FirstIsStored(DropLast(es), k);
    }
  }

  lemma {:induction false} NoneIsStored(es: seq<Upstream>)
    requires forall e <- es :: FinalOf(e.event).None?
    ensures FirstFinal(es) == None
  {
    if es != [] {
      NoneIsStored(DropLast(es));
    }
  }

  // ------------------------------------------------------------------ stored as collected

  lemma {:induction false} BeforeTheEnd(es: seq<Upstream>)
    requires Open(Events(es))
    ensures FirstFinal(es) == None
  {
    if es != [] {
      var p := DropLast(es);
      assert Events(es) == Events(p) + [Last(es).event];
      assert Last(es).event in Events(es) && forall e <- Events(p) :: e in Events(es);
      BeforeTheEnd(p);
    }
  }

  /** Both endpoints store the same response, exactly unless it failed without saying so: then
      the non-streaming one marks it failed, and fills in an error reported before it. */
  lemma StoredIsCollected(es: seq<Upstream>, last: Upstream)
    requires Open(Events(es)) && FinalOf(last.event).Some?
    ensures var final := FinalOf(last.event).value;
      var collected := CollectResult(Events(es + [last]), None);
      && collected.Answered?
      && (FirstFinal(es + [last]) == Some(EnsureResponse(collected.value)) <==>
            last.event.Failed? ==> final.status == "failed" && (final.error != "" || Reported(Events(es)) == ""))
  {
    var all := es + [last];
    assert DropLast(all) == es && Last(all) == last;
    assert DropLast(Events(all)) == Events(es) && Last(Events(all)) == last.event;
    BeforeTheEnd(es);
    OpenCollects(Events(es));
  }

  /** A failure without an error of its own: one endpoint stores the error reported before it. */
  lemma ReportedErrorIsStoredOnce()
    ensures var r := Response("failed", "", None, [], "");
      var es := [Upstream(ErrorEvent("reported"), None)];
      var last := Upstream(Failed(Some(r)), None);
      && FirstFinal(es + [last]) == Some(r)
      && CollectResult(Events(es + [last]), None) == Answered(r.(error := "reported"))
  {
    var r := Response("failed", "", None, [], "");
    var es, last := [Upstream(ErrorEvent("reported"), None)], Upstream(Failed(Some(r)), None);
    assert DropLast(es) == [] && Events([]) == [] && Events(es) == [ErrorEvent("reported")];
    assert DropLast(Events(es)) == [];
    assert DropLast(es + [last]) == es && Events(es + [last]) == Events(es) + [last.event];
    assert DropLast(Events(es) + [last.event]) == Events(es);
    BeforeTheEnd(es);
    OpenCollects(Events(es));
  }
}
