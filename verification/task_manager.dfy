/** The background task manager (`BackgroundTaskManager`): a map from task names to tasks,
    with an idempotent start and a stop that cancels every unfinished task, waits for all of
    them and clears the map. The only task it is asked to start is the database monitor. */
module TaskManager {
  import DbMonitor

  /** A task of the map: still running, or done (returned, raised or cancelled). */
  datatype TaskState = Running | Done

  /** The task map, and the monitor whose loop the `db_monitor` task runs. */
  datatype Manager = Manager(tasks: map<string, TaskState>, monitor: DbMonitor.Monitor)

  const MonitorTask: string := "db_monitor"

  /** `start_task`: a name whose task is still running is left alone (with a warning);
      otherwise a fresh task is created and stored under the name, replacing a done one. */
  function StartTask(tasks: map<string, TaskState>, name: string): (r: map<string, TaskState>)
    ensures name in r && r[name] == Running
    ensures name in tasks && tasks[name] == Running ==> r == tasks
    ensures forall n :: n != name ==> (n in r <==> n in tasks)
    ensures forall n :: n in tasks && n != name ==> r[n] == tasks[n]
  {
    if name in tasks && tasks[name] == Running then tasks else tasks[name := Running]
  }

  /** `start_all_tasks`: start the `db_monitor` task; a newly created task runs
      `start_monitoring`, which sets the monitor's flag. */
  function StartAllTasks(m: Manager): (r: Manager)
    ensures r.tasks == StartTask(m.tasks, MonitorTask)
    ensures r.tasks.Keys == m.tasks.Keys + {MonitorTask}
    ensures MonitorTask in m.tasks && m.tasks[MonitorTask] == Running ==> r == m
    ensures !(MonitorTask in m.tasks && m.tasks[MonitorTask] == Running)
            ==> r.monitor == DbMonitor.StartMonitoring(m.monitor)
  {
    if MonitorTask in m.tasks && m.tasks[MonitorTask] == Running then m
    else Manager(StartTask(m.tasks, MonitorTask), DbMonitor.StartMonitoring(m.monitor))
  }

  /** Calling `start_all_tasks` again while the monitor task runs changes nothing. */
  lemma StartAllIdempotent(m: Manager)
    ensures StartAllTasks(StartAllTasks(m)) == StartAllTasks(m)
  {
  }

  /** What `stop_all_tasks` did: the manager afterwards and the names of the tasks it
      cancelled. Outcomes of the tasks (results, exceptions, cancellations) are gathered and
      dropped, so the call itself never fails. */
  datatype Stopped = Stopped(manager: Manager, cancelled: set<string>)

  /** `stop_all_tasks`: clear the monitor's flag, cancel every task not yet done, wait for all
      of them, and empty the map. */
  function StopAllTasks(m: Manager): (r: Stopped)
    ensures r.manager.tasks == map[]
    ensures !r.manager.monitor.running && r.manager.monitor.cursor == m.monitor.cursor
    ensures forall n :: n in r.cancelled <==> n in m.tasks && m.tasks[n] == Running
  {
    Stopped(Manager(map[], DbMonitor.StopMonitoring(m.monitor)),
            set n | n in m.tasks && m.tasks[n] == Running)
  }

  /** After a stop, a start creates the monitor task afresh and sets the flag again. */
  lemma RestartAfterStop(m: Manager)
    ensures var r := StartAllTasks(StopAllTasks(m).manager);
            r.tasks == map[MonitorTask := Running] && r.monitor.running
  {
  }
}
