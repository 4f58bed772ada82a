/** What the two polling detectors read from the `trace_events` collection, and what a
    risk-assessment call gives back to the dispatcher that awaited it. The database itself is
    not modelled: a query result is an explicit sequence of records. */
module TraceEvents {
  import opened Common
  import opened EventTracker
  import opened RiskCrew

  /** One trace-event document: its `_id` (absent when the field is missing; `str(_id)`
      otherwise), its `timestamp` (seconds), and whether a `risk_assessment` is stored. */
  datatype TraceRecord = TraceRecord(id: Option<EventId>, timestamp: int, assessed: bool)

  /** The outcome of awaiting `run_risk_assessment_for_event`: the returned dict, or an
      exception. */
  datatype Invocation = Returned(result: Assessment) | Raised(err: string)

  /** The `success` flag every dispatcher passes to `mark_as_processed`:
      `result.get('status') == 'success'`, and false when the call raised. */
  predicate Succeeded(inv: Invocation) {
    inv.Returned? && inv.result.status == "success"
  }

  /** The dispatcher's outcome agrees with the crew's classification: a crew that ran reports
      success exactly when its text contains an indicator. */
  lemma SucceededMatchesClassification(c: Construction, k: Kickoff)
    ensures Succeeded(Returned(RunRiskAssessmentForEvent(c, k)))
            <==> c.Constructed? && k.Text? && LooksSuccessful(k.text)
  {
  }

  /** The records whose timestamp lies in the half-open window `(lo, hi]`. */
  function InWindow(lo: int, hi: int): TraceRecord -> bool {
    (r: TraceRecord) => lo < r.timestamp <= hi
  }

  /** The records of `rs` newer than `lo` that carry no risk assessment yet. */
  function NewAndUnassessed(lo: int): TraceRecord -> bool {
    (r: TraceRecord) => lo < r.timestamp && !r.assessed
  }

  /** No two records share an `_id` (the collection's primary key). */
  predicate UniqueIds(rs: seq<TraceRecord>) {
    forall i, j :: 0 <= i < j < |rs| && rs[i].id.Some? ==> rs[i].id != rs[j].id
  }

  /** Every record of the sequence has an `_id`. */
  predicate AllHaveIds(rs: seq<TraceRecord>) {
    forall i :: 0 <= i < |rs| ==> rs[i].id.Some?
  }

  /** The ids of the records before the first one that lacks an `_id`: the records a loop that
      fails on a missing `_id` gets to handle. */
  function PresentIds(rs: seq<TraceRecord>): (ids: seq<EventId>)
    ensures |ids| <= |rs|
    ensures AllHaveIds(rs) ==> |ids| == |rs|
    ensures forall i :: 0 <= i < |ids| ==> rs[i].id == Some(ids[i])
    ensures |ids| < |rs| ==> rs[|ids|].id.None?
    decreases |rs|
  {
    if |rs| == 0 || rs[0].id.None? then []
    else [rs[0].id.value] + PresentIds(rs[1..])
  }

  /** The ids of all records that have one, in order. */
  function KnownIds(rs: seq<TraceRecord>): (ids: seq<EventId>)
    ensures forall x :: x in ids <==> exists i :: 0 <= i < |rs| && rs[i].id == Some(x)
    decreases |rs|
  {
    if |rs| == 0 then []
    else
      var rest := KnownIds(rs[1..]);
      assert forall i :: 1 <= i < |rs| ==> rs[i] == rs[1..][i - 1];
      (if rs[0].id.Some? then [rs[0].id.value] else []) + rest
  }

  /** The id of a record of the sequence is among its known ids. */
  lemma KnownIdOf(rs: seq<TraceRecord>, r: TraceRecord)
    requires r in rs && r.id.Some?
    ensures r.id.value in KnownIds(rs)
  {
    var i :| 0 <= i < |rs| && rs[i] == r;
  }

  /** Dropping the first record keeps the ids distinct, and the first id does not recur. */
  lemma UniqueIdsTail(rs: seq<TraceRecord>)
    requires |rs| > 0 && UniqueIds(rs)
    ensures UniqueIds(rs[1..])
    ensures rs[0].id.Some? ==> rs[0].id.value !in KnownIds(rs[1..])
  {
    forall i, j | 0 <= i < j < |rs[1..]| && rs[1..][i].id.Some?
      ensures rs[1..][i].id != rs[1..][j].id
    {
      assert rs[1..][i] == rs[i + 1] && rs[1..][j] == rs[j + 1];
    }
    if rs[0].id.Some? {
      forall i | 0 <= i < |rs[1..]| ensures rs[1..][i].id != rs[0].id {
        assert rs[1..][i] == rs[i + 1];
      }
    }
  }

  /** Records with distinct ids list their ids without repetition. */
  lemma {:induction false} KnownIdsNoDup(rs: seq<TraceRecord>)
    requires UniqueIds(rs)
    ensures NoDup(KnownIds(rs))
    decreases |rs|
  {
    if |rs| > 0 {
      UniqueIdsTail(rs);
      KnownIdsNoDup(rs[1..]);
      if rs[0].id.Some? {
        NoDupCons(rs[0].id.value, KnownIds(rs[1..]));
      }
    }
  }
}
