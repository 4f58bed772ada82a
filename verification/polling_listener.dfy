/** The polling detector (`poll_new_events_async`): every cycle queries the trace events of the
    window `(last_check_time, now]`, claims each new id in the shared tracker and spawns a
    `process_event` task for every claim it wins. The cursor `last_check_time` advances only
    after a cycle that found events and handled all of them.

    One cycle is one atomic step. Between the tracker calls of a cycle there is no suspension
    point (the spawned tasks only start running once the cycle sleeps), so the read checks and
    the claim of an id see the same tracker state. */
module PollingListener {
  import opened Common
  import opened EventTracker
  import opened TraceEvents

  /** `polling_interval`, and the back-off after an error or a missing collection (seconds). */
  const PollingInterval: nat := 30
  const RetryDelay: nat := 10

  /** The state of `db_service.trace_events` at the start of a cycle: not set up yet, failing
      (the query or any other call of the cycle raises), or holding `records`, listed in the
      order the cycle's query returns them (newest first). */
  datatype Collection = Uninitialised | Unreachable | Ready(records: seq<TraceRecord>)

  /** The records the cycle's query `{"timestamp": {"$gt": lo, "$lte": hi}}` selects. */
  function Window(rs: seq<TraceRecord>, lo: int, hi: int): (w: seq<TraceRecord>)
    ensures forall r :: r in w <==> r in rs && lo < r.timestamp <= hi
  {
    Filter(rs, InWindow(lo, hi))
  }

  /** The result of the `for event in new_events` loop: the tracker afterwards, the ids for
      which a `process_event` task was spawned, in order, and whether the loop was cut short
      by a record without `_id` (a `KeyError`). */
  datatype Batch = Batch(tracker: Tracker, spawned: seq<EventId>, failed: bool)

  function SetOf(s: seq<EventId>): set<EventId> {
    set x | x in s
  }

  /** `spawned` holds exactly the ids read from `events` that `t` did not hold. */
  ghost predicate SpawnsUnheld(events: seq<TraceRecord>, t: Tracker, spawned: seq<EventId>) {
    forall x :: x in spawned <==> x in PresentIds(events) && !Retains(t, x)
  }

  /** `t'` holds what `t` holds and also `x`, nothing else. */
  ghost predicate HoldsAlso(t': Tracker, t: Tracker, x: EventId) {
    forall y :: Retains(t', y) <==> Retains(t, y) || y == x
  }

  /** Claiming an unheld id makes the tracker hold that id and nothing else new. */
  lemma ClaimHoldsAlso(t: Tracker, x: EventId)
    requires !Retains(t, x)
    ensures HoldsAlso(MarkAsProcessing(t, x).tracker, t, x)
  {
  }

  /** Adding an id the tracker already holds changes nothing it holds. */
  lemma AlreadyHeld(t: Tracker, x: EventId)
    requires Retains(t, x)
    ensures HoldsAlso(t, t, x)
  {
  }

  /** A claim of `x` followed by the rest of the batch adds `x` and the rest's ids. */
  lemma ClaimThenRest(t: Tracker, x: EventId, rest: Batch)
    requires rest.tracker == t.(processing := t.processing + {x} + SetOf(rest.spawned))
    ensures rest.tracker == t.(processing := t.processing + SetOf([x] + rest.spawned))
  {
    assert SetOf([x] + rest.spawned) == {x} + SetOf(rest.spawned);
  }

  /** One record of a batch: the ids spawned from the whole batch are the first record's id,
      when the tracker did not hold it, followed by those spawned from the rest, where the
      tracker now also holds the first id. */
  lemma SpawnedStep(events: seq<TraceRecord>, t: Tracker, t': Tracker, x: EventId,
                    spawned: seq<EventId>, rest: seq<EventId>)
    requires |events| > 0 && events[0].id == Some(x)
    requires SpawnsUnheld(events[1..], t', rest)
    requires HoldsAlso(t', t, x)
    requires spawned == (if Retains(t, x) then rest else [x] + rest)
    ensures SpawnsUnheld(events, t, spawned)
  {
    assert PresentIds(events) == [x] + PresentIds(events[1..]);
  }

  /** The loop over the events of one cycle. An id the tracker holds is skipped; any other id
      is claimed, and the claim, made with no state change since the checks, succeeds. A record
      without `_id` raises, ending the loop; claims made before it stay. */
  function DispatchBatch(events: seq<TraceRecord>, t: Tracker): (b: Batch)
    ensures b.failed <==> !AllHaveIds(events)
    ensures SpawnsUnheld(events, t, b.spawned)
    ensures b.tracker == t.(processing := t.processing + SetOf(b.spawned))
    ensures Valid(t) ==> Valid(b.tracker)
    decreases |events|
  {
    if |events| == 0 then Batch(t, [], false)
    else if events[0].id.None? then Batch(t, [], true)
    else
      var x := events[0].id.value;
      assert AllHaveIds(events) <==> AllHaveIds(events[1..]) by {
        assert forall i :: 1 <= i < |events| ==> events[i] == events[1..][i - 1];
      }
      if IsProcessing(t, x) || HasProcessed(t, x) then
        var rest := DispatchBatch(events[1..], t);
        AlreadyHeld(t, x);
        SpawnedStep(events, t, t, x, rest.spawned, rest.spawned);
        rest
      else
        var c := MarkAsProcessing(t, x);
        assert c.granted;
        var rest := DispatchBatch(events[1..], c.tracker);
        ClaimHoldsAlso(t, x);
        ClaimThenRest(t, x, rest);
        SpawnedStep(events, t, c.tracker, x, [x] + rest.spawned, rest.spawned);
        Batch(rest.tracker, [x] + rest.spawned, rest.failed)
  }

  /** A cycle spawns at most one task per id, even when the window lists an id twice: the
      first claim makes the tracker hold it, so a repeat is skipped. */
  lemma {:induction false} DispatchClaimsEachIdOnce(events: seq<TraceRecord>, t: Tracker)
    ensures NoDup(DispatchBatch(events, t).spawned)
    decreases |events|
  {
    if |events| > 0 && events[0].id.Some? {
      var x := events[0].id.value;
      if IsProcessing(t, x) || HasProcessed(t, x) {
        DispatchClaimsEachIdOnce(events[1..], t);
      } else {
        var c := MarkAsProcessing(t, x);
        var rest := DispatchBatch(events[1..], c.tracker);
        DispatchClaimsEachIdOnce(events[1..], c.tracker);
        assert x !in rest.spawned;
        NoDupCons(x, rest.spawned);
      }
    }
  }

  /** What one iteration of the polling loop leaves behind: the new cursor, the tracker, the
      ids it spawned tasks for, and how long it then sleeps. */
  datatype PollStep = PollStep(cursor: int, tracker: Tracker, spawned: seq<EventId>, sleep: nat)

  /** One iteration of the `while not stop_event.is_set()` loop at time `now`. */
  function PollCycle(cursor: int, t: Tracker, c: Collection, now: int): (s: PollStep)
    ensures s.cursor == now || s.cursor == cursor
    ensures s.cursor != cursor ==>
              c.Ready? && |Window(c.records, cursor, now)| > 0 && AllHaveIds(Window(c.records, cursor, now))
    ensures c.Ready? && |Window(c.records, cursor, now)| > 0 && AllHaveIds(Window(c.records, cursor, now))
            ==> s.cursor == now
    ensures cursor <= now ==> cursor <= s.cursor
    ensures s.sleep == RetryDelay
            <==> !c.Ready? || !AllHaveIds(Window(c.records, cursor, now))
    ensures s.sleep == PollingInterval || s.sleep == RetryDelay
    ensures !c.Ready? ==> s.tracker == t && s.spawned == []
    ensures forall x :: x in s.spawned ==> !Retains(t, x) && IsProcessing(s.tracker, x)
    ensures forall x :: x in s.spawned <==>
              c.Ready? && x in PresentIds(Window(c.records, cursor, now)) && !Retains(t, x)
    ensures NoDup(s.spawned)
    ensures s.tracker.processed == t.processed
    ensures s.tracker.processing == t.processing + SetOf(s.spawned)
    ensures Valid(t) ==> Valid(s.tracker)
  {
    match c
    case Uninitialised => PollStep(cursor, t, [], RetryDelay)
    case Unreachable => PollStep(cursor, t, [], RetryDelay)
    case Ready(rs) =>
      var events := Window(rs, cursor, now);
      if |events| == 0 then
        PollStep(cursor, t, [], PollingInterval)
      else
        var b := DispatchBatch(events, t);
        DispatchClaimsEachIdOnce(events, t);
        if b.failed then PollStep(cursor, b.tracker, b.spawned, RetryDelay)
        else PollStep(now, b.tracker, b.spawned, PollingInterval)
  }

  /** Windows that meet at a cursor neither overlap nor leave a gap: a record at exactly the
      boundary belongs to the earlier window only, and `(lo, hi]` is the union of `(lo, mid]`
      and `(mid, hi]`. So consecutive successful cycles read every record once. */
  lemma WindowBoundaries(rs: seq<TraceRecord>, lo: int, mid: int, hi: int, r: TraceRecord)
    requires lo <= mid <= hi
    ensures !(r in Window(rs, lo, mid) && r in Window(rs, mid, hi))
    ensures r in Window(rs, lo, hi) <==> r in Window(rs, lo, mid) || r in Window(rs, mid, hi)
  {
  }

  /** An empty window leaves the cursor where it was; so does a failing cycle. */
  lemma {:induction false} CursorStaysOnEmptyOrFailedCycle(cursor: int, t: Tracker, c: Collection, now: int)
    requires !c.Ready? || |Window(c.records, cursor, now)| == 0
             || !AllHaveIds(Window(c.records, cursor, now))
    ensures PollCycle(cursor, t, c, now).cursor == cursor
  {
  }

  /** Re-scanning after a cycle that failed part-way never spawns a second task for an id the
      failed attempt claimed, as long as the tracker still holds it: whatever the completions
      in between, the id is either still processing or recorded as processed. */
  lemma RetryNeverRedispatches(cursor: int, t: Tracker, c: Collection, now: int,
                               t2: Tracker, c2: Collection, now2: int, x: EventId)
    requires x in PollCycle(cursor, t, c, now).spawned
    requires Retains(t2, x)
    ensures x !in PollCycle(PollCycle(cursor, t, c, now).cursor, t2, c2, now2).spawned
  {
  }

  /** Right after a cycle, before any spawned task completes, the next cycle spawns nothing it
      spawned before. */
  lemma BackToBackCyclesSpawnDisjoint(cursor: int, t: Tracker, c: Collection, now: int,
                                      c2: Collection, now2: int)
    ensures var s := PollCycle(cursor, t, c, now);
            forall x :: x in s.spawned ==> x !in PollCycle(s.cursor, s.tracker, c2, now2).spawned
  {
  }

  /** `process_event`: await the assessment, then record the outcome; an exception records a
      failure. With the history in a reachable state the id ends up processed with exactly
      that outcome. */
  function ProcessEvent(t: Tracker, x: EventId, inv: Invocation, now: int): (r: Tracker)
    ensures !IsProcessing(r, x)
    ensures r.processing == t.processing - {x}
    ensures Valid(t) ==> Valid(r)
    ensures NotAfter(t, now) ==> NotAfter(r, now)
    ensures Valid(t) && NotAfter(t, now) && t.maxHistory >= 1
            ==> Lookup(r.processed, x) == Some(Record(now, Succeeded(inv)))
  {
    var r := MarkAsProcessed(t, x, Succeeded(inv), now);
    if Valid(t) && NotAfter(t, now) && t.maxHistory >= 1 then
      CompletionIsRecorded(t, x, Succeeded(inv), now);
      r
    else r
  }

  /** The module-level state of the polling tasks: the one shared `stop_event`, the task
      `polling_task` refers to, and, for every loop task created so far (task ids `0, 1, ...`),
      whether it is still running its `while` loop. */
  datatype Poller = Poller(stopSet: bool, task: Option<nat>, loops: seq<bool>)

  function InitialPoller(): Poller {
    Poller(false, None, [])
  }

  /** Loop task `k` reaches `while not stop_event.is_set()`: it returns when the flag is set and
      runs another cycle otherwise. Whichever task created the flag's current value, every
      loop reads the same flag. */
  function LoopTest(p: Poller, k: nat): (q: Poller)
    ensures q.stopSet == p.stopSet && q.task == p.task && |q.loops| == |p.loops|
    ensures forall j :: 0 <= j < |p.loops| && j != k ==> q.loops[j] == p.loops[j]
    ensures k < |p.loops| ==> (q.loops[k] <==> p.loops[k] && !p.stopSet)
  {
    if k < |p.loops| && p.stopSet then p.(loops := p.loops[k := false]) else p
  }

  /** `start_polling_task`: clear the flag and create a new loop task, without looking at the
      current one, whose loop goes on running. */
  function StartPolling(p: Poller): (q: Poller)
    ensures !q.stopSet
    ensures q.task == Some(|p.loops|) && |q.loops| == |p.loops| + 1 && q.loops[|p.loops|]
    ensures forall j :: 0 <= j < |p.loops| ==> q.loops[j] == p.loops[j]
  {
    Poller(false, Some(|p.loops|), p.loops + [true])
  }

  /** `stop_polling_task`: with no task a no-op; otherwise set the flag, await the referenced
      task (which returns at its next loop test) and drop the reference. No other loop is
      awaited: each returns only when it reaches its own loop test with the flag still set. */
  function StopPolling(p: Poller): (q: Poller)
    ensures q.task == None
    ensures p.task == None ==> q == p
    ensures p.task != None ==> q.stopSet && |q.loops| == |p.loops|
    ensures p.task != None && p.task.value < |p.loops| ==> !q.loops[p.task.value]
    ensures forall j :: 0 <= j < |p.loops| && Some(j) != p.task ==> q.loops[j] == p.loops[j]
  {
    if p.task == None then p
    else if p.task.value < |p.loops| then Poller(true, None, p.loops[p.task.value := false])
    else Poller(true, None, p.loops)
  }

  /** The loop tests of the tasks `ks`, one after the other. */
  function LoopTests(p: Poller, ks: seq<nat>): (q: Poller)
    ensures q.stopSet == p.stopSet && q.task == p.task && |q.loops| == |p.loops|
    decreases |ks|
  {
    if |ks| == 0 then p else LoopTests(LoopTest(p, ks[0]), ks[1..])
  }

  /** While the flag stays set, every loop that reaches its test returns, and none resumes. */
  lemma {:induction false} SetFlagEndsEveryTestedLoop(p: Poller, ks: seq<nat>)
    requires p.stopSet
    ensures forall j :: 0 <= j < |p.loops| && !p.loops[j] ==> !LoopTests(p, ks).loops[j]
    ensures forall i :: 0 <= i < |ks| && ks[i] < |p.loops| ==> !LoopTests(p, ks).loops[ks[i]]
    decreases |ks|
  {
    if |ks| > 0 {
      var p1 := LoopTest(p, ks[0]);
      SetFlagEndsEveryTestedLoop(p1, ks[1..]);
      forall i | 0 <= i < |ks| && ks[i] < |p.loops| ensures !LoopTests(p, ks).loops[ks[i]] {
        if i > 0 {
          assert ks[i] == ks[1..][i - 1];
        }
      }
    }
  }

  /** Starting twice creates two loops while the handle only remembers the second. A stop then
      awaits only the second: the first is still running when the stop returns, and returns
      at its next loop test because it reads the same flag. */
  lemma StartingTwiceOrphansALoop(p: Poller)
    ensures var q := StopPolling(StartPolling(StartPolling(p)));
            var first := |p.loops|;
            && |q.loops| == first + 2 && q.stopSet
            && q.loops[first] && !q.loops[first + 1]
            && !LoopTest(q, first).loops[first]
  {
  }

  /** A start that comes before the orphan's next loop test clears the shared flag, so the
      orphan goes on polling next to the new loop. */
  lemma StartRevivesAnOrphan(p: Poller)
    ensures var q := StartPolling(StopPolling(StartPolling(StartPolling(p))));
            var first := |p.loops|;
            && LoopTest(q, first).loops[first]
            && LoopTest(q, first).loops[first + 2]
  {
  }

  /** Stopping is idempotent. */
  lemma StopIdempotent(p: Poller)
    ensures StopPolling(StopPolling(p)) == StopPolling(p)
  {
  }
}
