/** The database monitor (`DatabaseMonitor`): every cycle fetches the unassessed trace events
    newer than `last_check_time`, claims each id in the shared tracker, checks that the record
    still exists, runs the assessment synchronously and records its outcome. Unlike the polling
    detector it sets `last_check_time` to the clock after every cycle, whatever happened.

    One cycle is one atomic step: `_process_new_events` has no suspension point, and the
    read checks and the claim of an id see the same tracker state. Each completion reads the
    clock anew (`clock`: the reading when the handling of an id ended), and the cursor takes
    the reading after the whole batch (`after`). */
module DbMonitor {
  import opened Common
  import opened EventTracker
  import opened TraceEvents

  /** `check_interval` (seconds). */
  const CheckInterval: nat := 30

  /** What `_get_new_events`' query did: raised (swallowed into `[]`), or ran over the
      collection's `records`. */
  datatype Fetch = FetchFailed | Fetched(records: seq<TraceRecord>)

  /** `_get_new_events`: `{"timestamp": {"$gt": cursor}}` and a `risk_assessment` that is
      absent or null; a failing query yields no events. */
  function GetNewEvents(f: Fetch, cursor: int): (es: seq<TraceRecord>)
    ensures f.FetchFailed? ==> es == []
    ensures f.Fetched? ==>
              forall r :: r in es <==> r in f.records && cursor < r.timestamp && !r.assessed
    ensures f.Fetched? && UniqueIds(f.records) ==> UniqueIds(es)
  {
    match f
    case FetchFailed => []
    case Fetched(rs) =>
      if UniqueIds(rs) then
        FilterKeepsUniqueIds(rs, NewAndUnassessed(cursor));
        Filter(rs, NewAndUnassessed(cursor))
      else
        Filter(rs, NewAndUnassessed(cursor))
  }

  lemma {:induction false} FilterKeepsUniqueIds(rs: seq<TraceRecord>, keep: TraceRecord -> bool)
    requires UniqueIds(rs)
    ensures UniqueIds(Filter(rs, keep))
    decreases |rs|
  {
    if |rs| > 0 {
      UniqueIdsTail(rs);
      FilterKeepsUniqueIds(rs[1..], keep);
      var tail := Filter(rs[1..], keep);
      if keep(rs[0]) && rs[0].id.Some? {
        var r := [rs[0]] + tail;
        forall i, j | 0 <= i < j < |r| && r[i].id.Some? ensures r[i].id != r[j].id {
          if i == 0 {
            assert r[j] in rs[1..];
          } else {
            assert r[i] == tail[i - 1] && r[j] == tail[j - 1];
          }
        }
      } else if keep(rs[0]) {
        var r := [rs[0]] + tail;
        forall i, j | 0 <= i < j < |r| && r[i].id.Some? ensures r[i].id != r[j].id {
          assert i != 0;
          assert r[i] == tail[i - 1] && r[j] == tail[j - 1];
        }
      } else {
        assert Filter(rs, keep) == tail;
      }
    }
  }

  /** The answer of `find_one({"_id": ObjectId(event_id)})` at the time the event is handled:
      the record is there, it is gone, or the lookup raised. */
  datatype Existence = Exists | Gone | CheckRaised

  /** The effect of handling one event: the tracker afterwards, the id claimed (if any), and
      whether the assessment was run. */
  datatype EventStep = EventStep(tracker: Tracker, claimed: Option<EventId>, invoked: bool)

  /** The `success` flag recorded for a claimed id: false when the record is gone or the
      lookup raised; otherwise the outcome of the assessment. */
  predicate RecordedSuccess(x: EventId, existence: EventId -> Existence, workflow: EventId -> Invocation) {
    existence(x) == Exists && Succeeded(workflow(x))
  }

  /** The entry a completion of `e.id` writes: the clock reading when its handling ended and
      the recorded flag. */
  predicate Written(e: Entry, existence: EventId -> Existence, workflow: EventId -> Invocation,
                    clock: EventId -> int) {
    e.rec == Record(clock(e.id), RecordedSuccess(e.id, existence, workflow))
  }

  /** A step that writes no entry except one for `x`, and adds nothing to the processing set,
      leaves the tracker holding no id it did not hold before, except possibly `x`. */
  lemma RetainedBefore(t: Tracker, t2: Tracker, x: EventId)
    requires t2.processing == t.processing
    requires forall f :: f in t2.processed ==> f in t.processed || f.id == x
    ensures forall y :: Retains(t2, y) ==> Retains(t, y) || y == x
  {
    forall y | Retains(t2, y) && y != x ensures Retains(t, y) {
      if HasProcessed(t2, y) {
        var f :| f in t2.processed && f.id == y;
        assert y in Keys(t.processed);
      }
    }
  }

  /** The claim of an id the tracker does not hold, then its completion with the recorded
      outcome at the clock reading of its end. */
  function ClaimAndComplete(t: Tracker, x: EventId, existence: EventId -> Existence,
                            workflow: EventId -> Invocation, clock: EventId -> int): (t2: Tracker)
    requires !Retains(t, x)
    ensures t2.processing == t.processing
    ensures t2.maxHistory == t.maxHistory && t2.retention == t.retention
    ensures forall f :: f in t2.processed ==>
              f in t.processed || (f.id == x && Written(f, existence, workflow, clock))
    ensures forall y :: Retains(t2, y) ==> Retains(t, y) || y == x
    ensures Valid(t) && NotAfter(t, clock(x)) && t.maxHistory >= 1
            ==> Lookup(t2.processed, x) == Some(Record(clock(x), RecordedSuccess(x, existence, workflow)))
    ensures Valid(t) ==> Valid(t2)
  {
    var c := MarkAsProcessing(t, x);
    var success := RecordedSuccess(x, existence, workflow);
    var t2 := MarkAsProcessed(c.tracker, x, success, clock(x));
    RetainedBefore(t, t2, x);
    if Valid(t) && NotAfter(t, clock(x)) && t.maxHistory >= 1 then
      CompletionIsRecorded(c.tracker, x, success, clock(x));
      t2
    else
      t2
  }

  /** One iteration of the `for event in events` loop of `_process_new_events`. */
  function ProcessOne(e: TraceRecord, t: Tracker, existence: EventId -> Existence,
                      workflow: EventId -> Invocation, clock: EventId -> int): (s: EventStep)
    ensures e.id.None? ==> s == EventStep(t, None, false)
    ensures e.id.Some? && Retains(t, e.id.value) ==> s == EventStep(t, None, false)
    ensures e.id.Some? && !Retains(t, e.id.value) ==> s.claimed == e.id
    ensures s.invoked <==> s.claimed.Some? && existence(s.claimed.value) == Exists
    ensures s.tracker.processing == t.processing
    ensures s.tracker.maxHistory == t.maxHistory && s.tracker.retention == t.retention
    ensures forall f :: f in s.tracker.processed ==>
              f in t.processed || (s.claimed == Some(f.id) && Written(f, existence, workflow, clock))
    ensures forall y :: Retains(s.tracker, y) ==> Retains(t, y) || s.claimed == Some(y)
    ensures s.claimed.Some? && Valid(t) && NotAfter(t, clock(s.claimed.value)) && t.maxHistory >= 1
            ==> Lookup(s.tracker.processed, s.claimed.value)
                == Some(Record(clock(s.claimed.value), RecordedSuccess(s.claimed.value, existence, workflow)))
    ensures Valid(t) ==> Valid(s.tracker)
  {
    if e.id.None? then EventStep(t, None, false)
    else
      var x := e.id.value;
      if IsProcessing(t, x) || HasProcessed(t, x) then EventStep(t, None, false)
      else
        EventStep(ClaimAndComplete(t, x, existence, workflow, clock), Some(x), existence(x) == Exists)
  }

  /** What `_process_new_events` did: the tracker afterwards, the ids it claimed and the ids it
      ran the assessment for, in order. */
  datatype Processed = Processed(tracker: Tracker, claimed: seq<EventId>, invoked: seq<EventId>)

  function Opt(o: Option<EventId>): seq<EventId> {
    if o.Some? then [o.value] else []
  }

  /** The run ids of a batch are its claimed ids whose record exists, one event at a time. */
  lemma InvokedCons(s: EventStep, rest: Processed, existence: EventId -> Existence)
    requires s.invoked <==> s.claimed.Some? && existence(s.claimed.value) == Exists
    requires forall x :: x in rest.invoked <==> x in rest.claimed && existence(x) == Exists
    ensures forall x :: x in (if s.invoked then Opt(s.claimed) else []) + rest.invoked
                        <==> x in Opt(s.claimed) + rest.claimed && existence(x) == Exists
  {
  }

  /** `_process_new_events`: every event is handled in turn; whatever happens to one event
      (skipped, gone, failed, raised) the loop goes on with the next. Every fetched id the
      tracker does not hold when the batch starts is claimed, and every entry the batch writes
      belongs to a claimed id. */
  function ProcessNewEvents(events: seq<TraceRecord>, t: Tracker, existence: EventId -> Existence,
                            workflow: EventId -> Invocation, clock: EventId -> int): (r: Processed)
    ensures r.tracker.processing == t.processing
    ensures r.tracker.maxHistory == t.maxHistory && r.tracker.retention == t.retention
    ensures forall x :: x in r.claimed ==> x !in t.processing && !IsProcessing(r.tracker, x)
    ensures forall x :: x in r.claimed ==> x in KnownIds(events)
    ensures forall x :: x in KnownIds(events) && !Retains(t, x) ==> x in r.claimed
    ensures forall x :: x in r.invoked <==> x in r.claimed && existence(x) == Exists
    ensures forall f :: f in r.tracker.processed ==>
              f in t.processed || (f.id in r.claimed && Written(f, existence, workflow, clock))
    ensures Valid(t) ==> Valid(r.tracker)
    decreases |events|
  {
    if |events| == 0 then Processed(t, [], [])
    else
      var s := ProcessOne(events[0], t, existence, workflow, clock);
      var rest := ProcessNewEvents(events[1..], s.tracker, existence, workflow, clock);
      assert forall i :: 1 <= i < |events| ==> events[i] == events[1..][i - 1];
      assert KnownIds(events) == Opt(events[0].id) + KnownIds(events[1..]);
      var r := Processed(rest.tracker, Opt(s.claimed) + rest.claimed,
                         (if s.invoked then Opt(s.claimed) else []) + rest.invoked);
      InvokedCons(s, rest, existence);
      r
  }

  /** Distinct records are claimed at most once each within a batch. */
  lemma {:induction false} BatchClaimsEachIdOnce(events: seq<TraceRecord>, t: Tracker,
                                                existence: EventId -> Existence,
                                                workflow: EventId -> Invocation, clock: EventId -> int)
    requires UniqueIds(events)
    ensures NoDup(ProcessNewEvents(events, t, existence, workflow, clock).claimed)
    decreases |events|
  {
    if |events| > 0 {
      var s := ProcessOne(events[0], t, existence, workflow, clock);
      var rest := ProcessNewEvents(events[1..], s.tracker, existence, workflow, clock);
      UniqueIdsTail(events);
      BatchClaimsEachIdOnce(events[1..], s.tracker, existence, workflow, clock);
      if s.claimed.Some? {
        NoDupCons(s.claimed.value, rest.claimed);
      }
    }
  }

  /** A batch of records with distinct ids, none of which the tracker holds, claims exactly
      their ids, in the order fetched. */
  lemma {:induction false} FreshBatchClaimsAll(events: seq<TraceRecord>, t: Tracker,
                                              existence: EventId -> Existence,
                                              workflow: EventId -> Invocation,
                                              clock: EventId -> int)
    requires UniqueIds(events)
    requires forall x :: x in KnownIds(events) ==> !Retains(t, x)
    ensures ProcessNewEvents(events, t, existence, workflow, clock).claimed == KnownIds(events)
    decreases |events|
  {
    if |events| > 0 {
      var s := ProcessOne(events[0], t, existence, workflow, clock);
      assert KnownIds(events) == Opt(events[0].id) + KnownIds(events[1..]);
      UniqueIdsTail(events);
      forall x | x in KnownIds(events[1..]) ensures !Retains(s.tracker, x) {
        assert x in KnownIds(events);
      }
      FreshBatchClaimsAll(events[1..], s.tracker, existence, workflow, clock);
    }
  }

  /** One step of the batch loop: the first event, then the rest from the tracker it left. */
  lemma ProcessNewEventsCons(e: TraceRecord, tail: seq<TraceRecord>, t: Tracker,
                             existence: EventId -> Existence,
                             workflow: EventId -> Invocation, clock: EventId -> int)
    ensures var s := ProcessOne(e, t, existence, workflow, clock);
            var rest := ProcessNewEvents(tail, s.tracker, existence, workflow, clock);
            ProcessNewEvents([e] + tail, t, existence, workflow, clock)
            == Processed(rest.tracker, Opt(s.claimed) + rest.claimed,
                         (if s.invoked then Opt(s.claimed) else []) + rest.invoked)
  {
    assert ([e] + tail)[0] == e && ([e] + tail)[1..] == tail;
  }

  /** Handling a batch is handling its first part, then the rest from the tracker the first
      part left: no outcome of an earlier event stops the later ones. */
  lemma {:induction false} BatchSplits(a: seq<TraceRecord>, b: seq<TraceRecord>, t: Tracker,
                                      existence: EventId -> Existence,
                                      workflow: EventId -> Invocation, clock: EventId -> int)
    ensures var ra := ProcessNewEvents(a, t, existence, workflow, clock);
            var rb := ProcessNewEvents(b, ra.tracker, existence, workflow, clock);
            ProcessNewEvents(a + b, t, existence, workflow, clock)
            == Processed(rb.tracker, ra.claimed + rb.claimed, ra.invoked + rb.invoked)
    decreases |a|
  {
    if |a| == 0 {
      assert a + b == b;
    } else {
      var e, tail := a[0], a[1..];
      assert a == [e] + tail;
      assert a + b == [e] + (tail + b);
      var s := ProcessOne(e, t, existence, workflow, clock);
      ProcessNewEventsCons(e, tail, t, existence, workflow, clock);
      ProcessNewEventsCons(e, tail + b, t, existence, workflow, clock);
      BatchSplits(tail, b, s.tracker, existence, workflow, clock);
      var ra1 := ProcessNewEvents(tail, s.tracker, existence, workflow, clock);
      var rb := ProcessNewEvents(b, ra1.tracker, existence, workflow, clock);
      var head := Opt(s.claimed);
      var headRun := if s.invoked then Opt(s.claimed) else [];
      var ra := ProcessNewEvents(a, t, existence, workflow, clock);
      assert ra == Processed(ra1.tracker, head + ra1.claimed, headRun + ra1.invoked);
      var rab := ProcessNewEvents(tail + b, s.tracker, existence, workflow, clock);
      assert rab == Processed(rb.tracker, ra1.claimed + rb.claimed, ra1.invoked + rb.invoked);
      var rall := ProcessNewEvents(a + b, t, existence, workflow, clock);
      assert rall == Processed(rab.tracker, head + rab.claimed, headRun + rab.invoked);
      AppendAssoc(head, ra1.claimed, rb.claimed);
      AppendAssoc(headRun, ra1.invoked, rb.invoked);
      assert ra.tracker == ra1.tracker;
      assert rall == Processed(rb.tracker, ra.claimed + rb.claimed, ra.invoked + rb.invoked);
    }
  }

  /** The monitor's own state: `last_check_time` and the `running` flag. */
  datatype Monitor = Monitor(cursor: int, running: bool)

  /** The result of one cycle: the monitor and tracker afterwards, what it claimed and ran,
      and how long it sleeps. */
  datatype MonitorStep = MonitorStep(monitor: Monitor, tracker: Tracker, claimed: seq<EventId>,
                                     invoked: seq<EventId>, sleep: nat)

  /** An id known in the fetched events belongs to a record the query selected. */
  lemma FetchedIdsAreNew(f: Fetch, cursor: int, claimed: seq<EventId>)
    requires f.Fetched?
    requires forall x :: x in claimed ==> x in KnownIds(GetNewEvents(f, cursor))
    ensures forall x :: x in claimed ==>
              exists r :: r in f.records && r.id == Some(x) && cursor < r.timestamp && !r.assessed
  {
    var events := GetNewEvents(f, cursor);
    forall x | x in claimed
      ensures exists r :: r in f.records && r.id == Some(x) && cursor < r.timestamp && !r.assessed
    {
      var i :| 0 <= i < |events| && events[i].id == Some(x);
      assert events[i] in events;
    }
  }

  /** Every selected record with an `_id` contributes it to the fetched ids. */
  lemma FetchedRecordsAreKnown(f: Fetch, cursor: int)
    ensures f.Fetched? ==>
              forall r :: r in f.records && cursor < r.timestamp && !r.assessed && r.id.Some?
                          ==> r.id.value in KnownIds(GetNewEvents(f, cursor))
  {
    if f.Fetched? {
      forall r | r in f.records && cursor < r.timestamp && !r.assessed && r.id.Some?
        ensures r.id.value in KnownIds(GetNewEvents(f, cursor))
      {
        KnownIdOf(GetNewEvents(f, cursor), r);
      }
    }
  }

  /** One iteration of the `while self.running` loop of `start_monitoring`. */
  function MonitorCycle(m: Monitor, t: Tracker, f: Fetch, existence: EventId -> Existence,
                        workflow: EventId -> Invocation, clock: EventId -> int, after: int): (s: MonitorStep)
    ensures s.monitor == Monitor(after, m.running)
    ensures s.sleep == CheckInterval
    ensures f.FetchFailed? ==> s.tracker == t && s.claimed == [] && s.invoked == []
    ensures s.tracker.processing == t.processing
    ensures forall x :: x in s.claimed ==> x !in t.processing
    ensures forall x :: x in s.claimed ==>
              exists r :: r in f.records && r.id == Some(x) && m.cursor < r.timestamp && !r.assessed
    ensures forall x :: x in s.invoked <==> x in s.claimed && existence(x) == Exists
    ensures f.Fetched? && UniqueIds(f.records) ==> NoDup(s.claimed)
    ensures f.Fetched? ==>
              forall r :: (r in f.records && m.cursor < r.timestamp && !r.assessed && r.id.Some?
                           && !Retains(t, r.id.value)) ==> r.id.value in s.claimed
    ensures forall e :: e in s.tracker.processed ==>
              e in t.processed || (e.id in s.claimed && Written(e, existence, workflow, clock))
    ensures Valid(t) ==> Valid(s.tracker)
    ensures NotAfter(t, after) && (forall x :: x in s.claimed ==> clock(x) <= after)
            ==> NotAfter(s.tracker, after)
  {
    var events := GetNewEvents(f, m.cursor);
    FetchedRecordsAreKnown(f, m.cursor);
    if |events| > 0 then
      var r := ProcessNewEvents(events, t, existence, workflow, clock);
      FetchedIdsAreNew(f, m.cursor, r.claimed);
      if f.Fetched? && UniqueIds(f.records) then
        BatchClaimsEachIdOnce(events, t, existence, workflow, clock);
        MonitorStep(Monitor(after, m.running), r.tracker, r.claimed, r.invoked, CheckInterval)
      else
      MonitorStep(Monitor(after, m.running), r.tracker, r.claimed, r.invoked, CheckInterval)
    else
      MonitorStep(Monitor(after, m.running), t, [], [], CheckInterval)
  }

  /** A record no newer than the cursor is never fetched again. */
  lemma OldRecordNeverFetched(f: Fetch, cursor: int, r: TraceRecord)
    requires r.timestamp <= cursor
    ensures r !in GetNewEvents(f, cursor)
  {
  }

  /** A failing query does not hold the cursor back: the cycle still moves it to the clock, so
      every record inserted during the failed window (timestamp at most `after`) is skipped by
      every later cycle whose cursor is at least `after`. */
  lemma FailedQuerySkipsWindow(m: Monitor, t: Tracker, existence: EventId -> Existence,
                               workflow: EventId -> Invocation, clock: EventId -> int, after: int,
                               r: TraceRecord, later: int, f2: Fetch)
    requires m.cursor < r.timestamp <= after <= later
    ensures MonitorCycle(m, t, FetchFailed, existence, workflow, clock, after).monitor.cursor == after
    ensures r !in GetNewEvents(f2, later)
  {
  }

  /** `start_monitoring` sets the flag; `stop_monitoring` only clears it. */
  function StartMonitoring(m: Monitor): (m': Monitor)
    ensures m'.running && m'.cursor == m.cursor
  {
    m.(running := true)
  }

  function StopMonitoring(m: Monitor): (m': Monitor)
    ensures !m'.running && m'.cursor == m.cursor
  {
    m.(running := false)
  }

  /** What happens between two `while self.running` tests: a full cycle with its inputs, or a
      call of `stop_monitoring`. */
  datatype MonitorInput =
    | Cycle(fetch: Fetch, existence: EventId -> Existence, workflow: EventId -> Invocation,
            clock: EventId -> int, after: int)
    | StopRequest

  datatype Run = Run(monitor: Monitor, tracker: Tracker, invoked: seq<EventId>)

  /** The monitoring loop driven by a sequence of inputs. Once the flag is clear the loop has
      exited and later inputs have no effect. */
  function RunMonitor(m: Monitor, t: Tracker, inputs: seq<MonitorInput>): (r: Run)
    ensures !m.running ==> r == Run(m, t, [])
    ensures r.tracker.processing == t.processing
    ensures Valid(t) ==> Valid(r.tracker)
    decreases |inputs|
  {
    if |inputs| == 0 || !m.running then Run(m, t, [])
    else
      match inputs[0]
      case StopRequest => RunMonitor(StopMonitoring(m), t, inputs[1..])
      case Cycle(f, existence, workflow, clock, after) =>
        var s := MonitorCycle(m, t, f, existence, workflow, clock, after);
        var rest := RunMonitor(s.monitor, s.tracker, inputs[1..]);
        Run(rest.monitor, rest.tracker, s.invoked + rest.invoked)
  }

  /** After a stop request no further cycle runs: the loop's effect is that of the inputs
      before the request, with the flag cleared. */
  lemma {:induction false} NoCycleAfterStop(m: Monitor, t: Tracker, before: seq<MonitorInput>,
                                           after: seq<MonitorInput>)
    requires forall i :: 0 <= i < |before| ==> before[i].Cycle?
    ensures var r := RunMonitor(m, t, before + [StopRequest] + after);
            var r0 := RunMonitor(m, t, before);
            r == Run(if m.running then StopMonitoring(r0.monitor) else m, r0.tracker, r0.invoked)
    decreases |before|
  {
    var all := before + [StopRequest] + after;
    if m.running {
      if |before| == 0 {
        assert all[0] == StopRequest && all[1..] == after;
      } else {
        assert all[0] == before[0];
        assert all[1..] == before[1..] + [StopRequest] + after;
        var i := before[0];
        var s := MonitorCycle(m, t, i.fetch, i.existence, i.workflow, i.clock, i.after);
        NoCycleAfterStop(s.monitor, s.tracker, before[1..], after);
      }
    }
  }
}
