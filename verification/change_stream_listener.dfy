/** The change-stream listener (`watch_trace_events_async`): connect, watch the collection's
    insert notifications and run an assessment for each inserted id, with no tracker check;
    after a connection or stream failure, close the client and retry after 30 seconds unless
    the stop flag is set. Plus the start/stop functions that manage its task.

    The loop is a state machine driven by what happens around it: a connection attempt
    succeeds or fails, a notification arrives, the stream ends or fails, the retry delay
    elapses, or someone sets the stop flag. Each assessment is awaited before the next
    notification is read; its outcome is ignored. */
module ChangeStreamListener {
  import opened Common
  import opened EventTracker

  /** The wait before a reconnection attempt (seconds). */
  const RetryDelay: nat := 30

  /** One change notification: `change.get('operationType')` and
      `str(change['documentKey']['_id'])` (absent when either key is missing). */
  datatype Change = Change(operationType: Option<string>, key: Option<EventId>)

  /** Where the loop is: trying to connect, iterating the stream, sleeping before a retry, or
      returned. */
  datatype Phase = Connecting | Streaming | Waiting | Finished

  /** The loop's state: its phase, the shared stop flag, whether its client is open, the ids
      it has run an assessment for (in order), and how many retry sleeps it has begun. */
  datatype Listener = Listener(phase: Phase, stopSet: bool, clientOpen: bool,
                               invoked: seq<EventId>, sleeps: nat)

  datatype Input =
    | Connected
    | ConnectFailed
    | Deliver(change: Change)
    | StreamEnded
    | StreamFailed
    | WaitElapsed
    | RequestStop

  /** The listener a fresh task starts with: its flag was just cleared, the loop test passed
      and the client was created, and the `ping` is awaited. */
  function Launch(): Listener {
    Listener(Connecting, false, true, [], 0)
  }

  /** The client is open from its creation before the `ping` until the `finally` clause closes
      it: exactly while connecting or streaming, and never while waiting or returned. */
  predicate Consistent(l: Listener) {
    l.clientOpen <==> (l.phase == Connecting || l.phase == Streaming)
  }

  /** A notification that triggers an assessment: an insert that names its document. */
  predicate Triggers(c: Change) {
    c.operationType == Some("insert") && c.key.Some?
  }

  /** Leaving the `try` block (failure, or the stream ended): close the client, then either
      sleep before retrying or, with the flag set, fall out of the `while` loop. */
  function AfterAttempt(l: Listener): (l': Listener)
    ensures !l'.clientOpen && l'.invoked == l.invoked && l'.stopSet == l.stopSet
    ensures l'.phase == (if l.stopSet then Finished else Waiting)
    ensures l'.sleeps == (if l.stopSet then l.sleeps else l.sleeps + 1)
  {
    if l.stopSet then l.(phase := Finished, clientOpen := false)
    else l.(phase := Waiting, clientOpen := false, sleeps := l.sleeps + 1)
  }

  function Step(l: Listener, i: Input): (l': Listener)
    ensures Consistent(l) ==> Consistent(l')
    ensures l'.stopSet == (l.stopSet || i == RequestStop)
    ensures l'.invoked == l.invoked
            || (l.phase == Streaming && !l.stopSet && i.Deliver? && Triggers(i.change)
                && l'.invoked == l.invoked + [i.change.key.value])
    ensures l.phase == Streaming && !l.stopSet && i.Deliver? && Triggers(i.change)
            ==> l'.invoked == l.invoked + [i.change.key.value]
    ensures l.stopSet ==> l'.sleeps == l.sleeps
    ensures l.phase == Finished ==> l'.phase == Finished
  {
    match i
    case RequestStop => l.(stopSet := true)
    case Connected =>
      if l.phase == Connecting then l.(phase := Streaming) else l
    case ConnectFailed =>
      if l.phase == Connecting then AfterAttempt(l) else l
    case Deliver(c) =>
      if l.phase != Streaming then l
      else if l.stopSet then AfterAttempt(l)
      else if Triggers(c) then l.(invoked := l.invoked + [c.key.value])
      else l
    case StreamEnded =>
      if l.phase == Streaming then AfterAttempt(l) else l
    case StreamFailed =>
      if l.phase == Streaming then AfterAttempt(l) else l
    case WaitElapsed =>
      if l.phase != Waiting then l
      else if l.stopSet then l.(phase := Finished)
      else l.(phase := Connecting, clientOpen := true)
  }

  function Run(l: Listener, inputs: seq<Input>): (l': Listener)
    ensures Consistent(l) ==> Consistent(l')
    ensures l.stopSet ==> l'.stopSet && l'.invoked == l.invoked && l'.sleeps == l.sleeps
    ensures l.phase == Finished ==> l'.phase == Finished
    decreases |inputs|
  {
    if |inputs| == 0 then l else Run(Step(l, inputs[0]), inputs[1..])
  }

  /** Every assessment the loop runs is for the id of an insert notification it received. */
  lemma {:induction false} OnlyInsertsInvoke(l: Listener, inputs: seq<Input>, x: EventId)
    requires x in Run(l, inputs).invoked && x !in l.invoked
    ensures exists i :: 0 <= i < |inputs| && inputs[i].Deliver? && Triggers(inputs[i].change)
                        && inputs[i].change.key == Some(x)
    decreases |inputs|
  {
    if |inputs| > 0 {
      var l1 := Step(l, inputs[0]);
      if x in l1.invoked {
        assert inputs[0].Deliver? && Triggers(inputs[0].change) && inputs[0].change.key == Some(x);
      } else {
        OnlyInsertsInvoke(l1, inputs[1..], x);
        var i :| 0 <= i < |inputs[1..]| && inputs[1..][i].Deliver? && Triggers(inputs[1..][i].change)
                 && inputs[1..][i].change.key == Some(x);
        assert inputs[i + 1] == inputs[1..][i];
      }
    }
  }

  /** There is no deduplication: the same insert delivered twice is assessed twice. */
  lemma SameInsertAssessedTwice(l: Listener, c: Change)
    requires l.phase == Streaming && !l.stopSet && Triggers(c)
    ensures Run(l, [Deliver(c), Deliver(c)]).invoked == l.invoked + [c.key.value, c.key.value]
  {
    var l1 := Step(l, Deliver(c));
    assert Run(l, [Deliver(c), Deliver(c)]) == Run(l1, [Deliver(c)]);
    assert Run(l1, [Deliver(c)]) == Step(l1, Deliver(c));
  }

  /** Once the flag is set nothing more is dispatched and no retry sleep begins; the loop
      returns at the next notification, at the end or failure of the stream, at the next
      connection failure, or when its current sleep ends. */
  lemma StopEndsTheLoop(l: Listener, inputs: seq<Input>)
    requires l.stopSet
    ensures Run(l, inputs).invoked == l.invoked
    ensures Run(l, inputs).sleeps == l.sleeps
    ensures l.phase == Streaming ==> forall c :: Step(l, Deliver(c)).phase == Finished
    ensures l.phase == Streaming ==> Step(l, StreamEnded).phase == Finished
    ensures l.phase == Streaming ==> Step(l, StreamFailed).phase == Finished
    ensures l.phase == Waiting ==> Step(l, WaitElapsed).phase == Finished
    ensures l.phase == Connecting ==> Step(l, ConnectFailed).phase == Finished
  {
  }

  /** A failed attempt with the flag clear closes the client and waits before reconnecting. */
  lemma FailureRetriesWhileNotStopped(l: Listener)
    requires l.phase == Streaming && !l.stopSet
    ensures Step(l, StreamFailed).phase == Waiting && !Step(l, StreamFailed).clientOpen
    ensures Run(l, [StreamFailed, WaitElapsed]).phase == Connecting
  {
    assert Run(l, [StreamFailed, WaitElapsed]) == Run(Step(l, StreamFailed), [WaitElapsed]);
  }

  /** A failed `ping` closes the client its attempt created and waits; the next attempt
      creates a new one. */
  lemma FailedPingClosesClient(l: Listener)
    requires l.phase == Connecting && !l.stopSet && Consistent(l)
    ensures l.clientOpen
    ensures Step(l, ConnectFailed) == l.(phase := Waiting, clientOpen := false, sleeps := l.sleeps + 1)
    ensures Run(l, [ConnectFailed, WaitElapsed]) == l.(sleeps := l.sleeps + 1)
  {
    assert Run(l, [ConnectFailed, WaitElapsed]) == Run(Step(l, ConnectFailed), [WaitElapsed]);
  }

  /** The module's `_listener_task`: absent, or a task running (or done running) the loop. */
  datatype Handle = Handle(task: Option<Listener>)

  predicate TaskDone(l: Listener) {
    l.phase == Finished
  }

  /** `start_change_stream_listener_task`: create a task, with the flag cleared, only when
      there is none or the previous one is done; otherwise only warn. */
  function StartListener(h: Handle): (h': Handle)
    ensures h.task.None? || TaskDone(h.task.value) ==> h' == Handle(Some(Launch()))
    ensures h.task.Some? && !TaskDone(h.task.value) ==> h' == h
  {
    if h.task.None? || TaskDone(h.task.value) then Handle(Some(Launch())) else h
  }

  datatype StopOutcome = NotRunning | Graceful | Cancelled

  /** `stop_change_stream_listener_task`: set the flag and wait for the task, which meanwhile
      sees the inputs `during`; if it has not returned by then (the 10-second timeout) it is
      cancelled. On every path the reference is cleared. */
  function StopListener(h: Handle, during: seq<Input>): (r: (Handle, StopOutcome))
    ensures r.0 == Handle(None)
    ensures r.1 == NotRunning <==> h.task.None? || TaskDone(h.task.value)
    ensures r.1 == Graceful <==>
              h.task.Some? && !TaskDone(h.task.value)
              && TaskDone(Run(h.task.value.(stopSet := true), during))
  {
    if h.task.None? || TaskDone(h.task.value) then (Handle(None), NotRunning)
    else
      var l := Run(h.task.value.(stopSet := true), during);
      (Handle(None), if TaskDone(l) then Graceful else Cancelled)
  }

  /** While the stop call waits, the task dispatches nothing more. */
  lemma NothingDispatchedWhileStopping(h: Handle, during: seq<Input>)
    requires h.task.Some?
    ensures Run(h.task.value.(stopSet := true), during).invoked == h.task.value.invoked
  {
  }

  /** Starting a task while one runs changes nothing; a start after a stop always creates a
      fresh task. */
  lemma StartAfterStopLaunches(h: Handle, during: seq<Input>)
    ensures StartListener(StopListener(h, during).0) == Handle(Some(Launch()))
    ensures h.task.Some? && !TaskDone(h.task.value) ==> StartListener(h) == h
  {
  }
}
