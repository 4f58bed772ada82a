/** The manual trigger `POST /risk/{event_id}/assess` (`assess_event_risk`): look the event up,
    consult the tracker in a fixed order, claim the id, await the assessment and record its
    outcome. Every exception, including the handler's own 404, is turned into a 500. */
module TraceEndpoint {
  import opened Common
  import opened EventTracker
  import opened TraceEvents

  /** What `get_trace_event(event_id)` gave: the event, nothing, or an exception. */
  datatype EventLookup = Found | NotFound | LookupRaised

  /** The HTTP outcome: a `{status, message}` reply (only its status is modelled) or an
      error status code. */
  datatype Response = Reply(status: string) | HttpError(code: nat)

  datatype Handled = Handled(response: Response, tracker: Tracker)

  /** `assess_event_risk(x)` against tracker `t`, where `inv` is what awaiting the assessment
      would give and `now` is the clock at completion. The read checks and the claim run with
      no suspension point between them, so a claim after both checks pass always succeeds and
      the `error` reply cannot be produced. */
  function AssessEventRisk(x: EventId, lookup: EventLookup, t: Tracker, inv: Invocation, now: int): (h: Handled)
    ensures h.response == HttpError(500) <==> lookup != Found || (!Retains(t, x) && inv.Raised?)
    ensures h.response == Reply("in_progress") <==> lookup == Found && IsProcessing(t, x)
    ensures h.response == Reply("already_processed")
            <==> lookup == Found && !IsProcessing(t, x) && HasProcessed(t, x)
    ensures h.response == Reply("success") <==> lookup == Found && !Retains(t, x) && inv.Returned?
    ensures h.response != Reply("error")
    ensures lookup != Found || Retains(t, x) ==> h.tracker == t
    ensures lookup == Found && !Retains(t, x) && inv.Raised?
            ==> h.tracker == t.(processing := t.processing + {x})
    ensures lookup == Found && !Retains(t, x) && inv.Returned?
            ==> h.tracker == MarkAsProcessed(t.(processing := t.processing + {x}), x, Succeeded(inv), now)
    ensures Valid(t) ==> Valid(h.tracker)
  {
    if lookup != Found then Handled(HttpError(500), t)
    else if IsProcessing(t, x) then Handled(Reply("in_progress"), t)
    else if HasProcessed(t, x) then Handled(Reply("already_processed"), t)
    else
      var c := MarkAsProcessing(t, x);
      if !c.granted then Handled(Reply("error"), t)
      else if inv.Raised? then Handled(HttpError(500), c.tracker)
      else Handled(Reply("success"), MarkAsProcessed(c.tracker, x, Succeeded(inv), now))
  }

  /** The reply is `success` whatever status the assessment reported; the tracker records that
      status as the completion's success flag. */
  lemma SuccessReplyRecordsOutcome(x: EventId, t: Tracker, a: RiskCrew.Assessment, now: int)
    requires Valid(t) && NotAfter(t, now) && t.maxHistory >= 1 && !Retains(t, x)
    ensures var h := AssessEventRisk(x, Found, t, Returned(a), now);
            h.response == Reply("success")
            && Lookup(h.tracker.processed, x) == Some(Record(now, a.status == "success"))
            && !IsProcessing(h.tracker, x)
  {
    CompletionIsRecorded(t.(processing := t.processing + {x}), x, a.status == "success", now);
  }

  /** An assessment that raises leaves the id processing for good: every later request for it
      answers `in_progress` and changes nothing. */
  lemma RaisedAssessmentLeavesIdStuck(x: EventId, t: Tracker, err: string, now: int,
                                      inv2: Invocation, now2: int)
    requires !Retains(t, x)
    ensures var h := AssessEventRisk(x, Found, t, Raised(err), now);
            h.response == HttpError(500)
            && IsProcessing(h.tracker, x)
            && AssessEventRisk(x, Found, h.tracker, inv2, now2) == Handled(Reply("in_progress"), h.tracker)
  {
  }

  /** Three requests in a row for an id the tracker does not hold answer `success`, then
      `already_processed` twice, with no change to the tracker after the first. */
  lemma ThreeRequests(x: EventId, t: Tracker, inv1: Invocation, inv2: Invocation, inv3: Invocation,
                      now: int, now2: int, now3: int)
    requires Valid(t) && NotAfter(t, now) && t.maxHistory >= 1 && !Retains(t, x)
    requires inv1.Returned?
    ensures var h1 := AssessEventRisk(x, Found, t, inv1, now);
            var h2 := AssessEventRisk(x, Found, h1.tracker, inv2, now2);
            var h3 := AssessEventRisk(x, Found, h2.tracker, inv3, now3);
            h1.response == Reply("success")
            && h2 == Handled(Reply("already_processed"), h1.tracker)
            && h3 == Handled(Reply("already_processed"), h1.tracker)
  {
    CompletionIsRecorded(t.(processing := t.processing + {x}), x, Succeeded(inv1), now);
  }
}
