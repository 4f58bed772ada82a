/** The two polling detectors started side by side (the polling listener and the database
    monitor), sharing one tracker, together with the completions of the tasks the polling
    listener spawned. Each step is one atomic transition: a polling cycle, a monitor cycle, or
    one `process_event` task finishing. The in-flight assessments are the poller's spawned
    tasks; the monitor finishes each of its assessments within its own cycle. */
module Detectors {
  import opened Common
  import opened EventTracker
  import opened TraceEvents
  import PollingListener
  import DbMonitor

  datatype System = System(tracker: Tracker, pollCursor: int, monitor: DbMonitor.Monitor,
                           inFlight: seq<EventId>)

  datatype Step =
    | PollStep(collection: PollingListener.Collection, now: int)
    | MonitorStep(fetch: DbMonitor.Fetch, existence: EventId -> DbMonitor.Existence,
                  workflow: EventId -> Invocation, clock: EventId -> int, after: int)
    | Completion(id: EventId, outcome: Invocation, now: int)

  /** The shared tracker is valid, and its processing set is exactly the ids of the in-flight
      `process_event` tasks, each at most once. */
  predicate Inv(s: System) {
    && Valid(s.tracker)
    && NoDup(s.inFlight)
    && (forall x :: x in s.inFlight ==> x in s.tracker.processing)
    && (forall x :: x in s.tracker.processing ==> x in s.inFlight)
  }

  function Remove(s: seq<EventId>, x: EventId): (r: seq<EventId>)
    ensures forall y :: y in r <==> y in s && y != x
    ensures NoDup(s) ==> NoDup(r)
    decreases |s|
  {
    if |s| == 0 then []
    else
      var rest := Remove(s[1..], x);
      assert forall i :: 1 <= i < |s| ==> s[i] == s[1..][i - 1];
      if s[0] == x then rest
      else
        if NoDup(s) then
          NoDupCons(s[0], rest);
          [s[0]] + rest
        else [s[0]] + rest
  }

  /** The ids a step hands to an assessment: the poller's spawned tasks, or the ids the
      monitor claimed (all of which it completes in the same cycle). */
  function Dispatched(s: System, step: Step): seq<EventId> {
    match step
    case PollStep(c, now) => PollingListener.PollCycle(s.pollCursor, s.tracker, c, now).spawned
    case MonitorStep(f, existence, workflow, clock, after) =>
      if s.monitor.running then
        DbMonitor.MonitorCycle(s.monitor, s.tracker, f, existence, workflow, clock, after).claimed
      else []
    case Completion(_, _, _) => []
  }

  /** The state after one step. A completion of an id that has no task in flight does not
      happen and leaves the state unchanged; a stopped monitor runs no cycle. */
  function Next(s: System, step: Step): (s': System)
    ensures Inv(s) ==> Inv(s')
    ensures Inv(s) ==> forall x :: x in Dispatched(s, step) ==> x !in s.inFlight
  {
    match step
    case PollStep(c, now) =>
      var p := PollingListener.PollCycle(s.pollCursor, s.tracker, c, now);
      if Inv(s) then
        NoDupAppend(s.inFlight, p.spawned);
        System(p.tracker, p.cursor, s.monitor, s.inFlight + p.spawned)
      else
        System(p.tracker, p.cursor, s.monitor, s.inFlight + p.spawned)
    case MonitorStep(f, existence, workflow, clock, after) =>
      if s.monitor.running then
        var m := DbMonitor.MonitorCycle(s.monitor, s.tracker, f, existence, workflow, clock, after);
        System(m.tracker, s.pollCursor, m.monitor, s.inFlight)
      else s
    case Completion(x, outcome, now) =>
      if x in s.inFlight then
        System(PollingListener.ProcessEvent(s.tracker, x, outcome, now), s.pollCursor, s.monitor,
               Remove(s.inFlight, x))
      else s
  }

  /** The state both detectors start from. */
  function Start(pollCursor: int, monitorCursor: int): (s: System)
    ensures Inv(s)
  {
    System(Init(), pollCursor, DbMonitor.Monitor(monitorCursor, true), [])
  }

  function Run(s: System, steps: seq<Step>): System
    decreases |steps|
  {
    if |steps| == 0 then s else Run(Next(s, steps[0]), steps[1..])
  }

  /** Along any interleaving the invariant holds. */
  lemma {:induction false} InterleavingKeepsInv(s: System, steps: seq<Step>)
    requires Inv(s)
    ensures Inv(Run(s, steps))
    decreases |steps|
  {
    if |steps| > 0 {
      var s1 := Next(s, steps[0]);
      assert Run(s, steps) == Run(s1, steps[1..]);
      InterleavingKeepsInv(s1, steps[1..]);
    }
  }

  /** So at no point of any interleaving do two assessments of one id run at once: neither
      detector hands out an id whose `process_event` task is still in flight. */
  lemma NoConcurrentAssessment(pollCursor: int, monitorCursor: int, steps: seq<Step>, step: Step)
    ensures var r := Run(Start(pollCursor, monitorCursor), steps);
            forall x :: x in Dispatched(r, step) ==> x !in r.inFlight
  {
    InterleavingKeepsInv(Start(pollCursor, monitorCursor), steps);
  }
}
