/** The objects that carry out the pipeline's atomic steps, updating their fields in place. Each
    method is one stretch of code between two suspension points; its postcondition is the step
    of the pipeline model it performs. */
module AlertObjects {
  import opened Common
  import opened QuietHours
  import opened AlertPipeline

  /** The clock, the tasks and the chat router as the services see them. */
  class EventLoop {
    var now: Time
    var tasks: seq<Task>
    var sent: seq<Message>

    constructor (at: Time)
      ensures View() == Loop(at, [], [])
    {
      now, tasks, sent := at, [], [];
    }

    function View(): LoopState
      reads this
    {
      Loop(now, tasks, sent)
    }

    method Tick(to: Time)
      modifies this`now
      ensures View() == old(View()).(now := to)
    {
      now := to;
    }

    method CreateTask(t: Task) returns (id: nat)
      modifies this
      ensures View() == Spawn(old(View()), t) && id == |old(tasks)|
    {
      id := |tasks|;
      tasks := tasks + [t];
    }

    method Suspend(id: nat, t: Task)
      requires id < |tasks|
      modifies this
      ensures View() == Become(old(View()), id, t)
    {
      tasks := tasks[id := t];
    }

    method Broadcast(m: Message)
      modifies this
      ensures View() == Send(old(View()), m)
    {
      sent := sent + [m];
    }
  }

  class AlertCorrelationService {
    const loop: EventLoop
    const enabled: bool
    var pending: seq<Pending>
    var flushTask: Option<nat>

    constructor (loop: EventLoop, enabled: bool)
      ensures this.loop == loop && this.enabled == enabled && View() == Buffer([], None)
    {
      this.loop, this.enabled := loop, enabled;
      pending, flushTask := [], None;
    }

    function View(): BufferState
      reads this
    {
      Buffer(pending, flushTask)
    }

    method Submit(a: Alert)
      modifies this, loop
      ensures (View(), loop.View()) == SubmitAlert(old(View()), old(loop.View()), a)
    {
      pending := pending + [Pending(a, loop.now)];
      if flushTask.None? || flushTask.value >= |loop.tasks| || loop.tasks[flushTask.value].Done? {
        var id := loop.CreateTask(WindowCreated(loop.now));
        flushTask := Some(id);
      }
    }

    /** The window task begins: it sleeps from now on, not from when it was created. */
    method BeginWindow(task: nat)
      requires task < |loop.tasks| && loop.tasks[task].WindowCreated?
      modifies loop
      ensures loop.View() ==
        Become(old(loop.View()), task, WindowSleeping(old(loop.tasks[task].created), old(loop.now)))
    {
      loop.Suspend(task, WindowSleeping(loop.tasks[task].created, loop.now));
    }

    /** The window's sleep is over: a flush is created and the window task is done. */
    method WindowElapsed(task: nat)
      requires task < |loop.tasks|
      modifies loop
      ensures loop.View() == WakeWindow(old(loop.View()), task)
    {
      var _ := loop.CreateTask(FlushCreated);
      loop.Suspend(task, Done);
      assert loop.tasks == old(loop.tasks)[task := Done] + [FlushCreated];
    }

    method Flush(task: nat, llmEnabled: bool)
      requires task < |loop.tasks|
      modifies this, loop
      ensures (View(), loop.View()) == StartFlush(old(View()), old(loop.View()), task, llmEnabled)
    {
      if |pending| == 0 {
        loop.Suspend(task, Done);
        return;
      }
      var batch := Alerts(pending);
      pending := [];
      if |batch| == 1 {
        loop.Suspend(task, Done);
        loop.Broadcast(Alone(batch[0]));
      } else if !llmEnabled {
        SendNext(task, batch);
      } else {
        loop.Suspend(task, FlushAsking(batch));
      }
    }

    method SendNext(task: nat, batch: seq<Alert>)
      requires task < |loop.tasks|
      modifies loop
      ensures loop.View() == SendFirst(old(loop.View()), task, batch)
    {
      if batch == [] {
        loop.Suspend(task, Done);
      } else {
        loop.Suspend(task, FlushSending(batch[1..]));
        loop.Broadcast(Alone(batch[0]));
      }
    }

    method HandleReply(task: nat, related: bool)
      requires task < |loop.tasks| && loop.tasks[task].FlushAsking? && loop.tasks[task].batch != []
      modifies loop
      ensures loop.View() == Reply(old(loop.View()), task, related)
    {
      var batch := loop.tasks[task].batch;
      if related {
        var severity := MaxSeverity(batch);
        loop.Suspend(task, Done);
        loop.Broadcast(Correlated(batch, severity));
      } else {
        SendNext(task, batch);
      }
    }

    static method MaxSeverity(batch: seq<Alert>) returns (highest: Severity)
      requires batch != []
      ensures highest == HighestSeverity(batch)
    {
      highest := batch[0].severity;
      assert batch[..1][0] == batch[0];
      for k := 1 to |batch|
        invariant highest == HighestSeverity(batch[..k])
      {
        assert batch[..k + 1][..k] == batch[..k];
        if Rank(batch[k].severity) > Rank(highest) { highest := batch[k].severity; }
      }
      assert batch[..|batch|] == batch;
    }
  }

  class AlertHandler {
    const config: Config
    const loop: EventLoop
    const correlation: AlertCorrelationService
    var quietQueue: seq<Alert>
    var quietFlushTask: Option<nat>
    var muteUntil: Option<Time>
    ghost var arrived: seq<Alert>
    ghost var dropped: seq<Alert>

    constructor (config: Config, loop: EventLoop)
      ensures Valid() && this.config == config && this.loop == loop
      ensures loop.View() == Loop(loop.now, [], []) ==> Snapshot() == After(config, Boot(loop.now))
    {
      this.config, this.loop := config, loop;
      correlation := new AlertCorrelationService(loop, config.correlate);
      quietQueue, quietFlushTask, muteUntil, arrived, dropped := [], None, None, [], [];
    }

    ghost predicate Valid() { correlation.loop == loop && correlation.enabled == config.correlate }

    ghost function View(): HandlerState
      reads this
    {
      Handler(quietQueue, quietFlushTask, muteUntil, arrived, dropped)
    }

    ghost function Snapshot(): State
      reads this, correlation, loop
    {
      State(View(), correlation.View(), loop.View())
    }

    method IsNonCriticalMuted() returns (muted: bool)
      modifies this`muteUntil
      ensures muted == old(Muted(View(), loop.now))
      ensures muteUntil == if muted then old(muteUntil) else None
    {
      if muteUntil.None? { return false; }
      if loop.now < muteUntil.value { return true; }
      muteUntil := None;
      return false;
    }

    method IsQuietHoursActive() returns (active: bool)
      ensures active == QuietNow(config, loop.now)
    {
      if config.quiet.None? { return false; }
      active := IsActive(config.quiet.value, loop.now);
    }

    method EnsureQuietFlushScheduled()
      modifies this`quietFlushTask, loop
      ensures (View(), loop.View()) == EnsureFlushScheduled(config, old(View()), old(loop.View()))
    {
      if config.quiet.None? { return; }
      if quietFlushTask.Some? && quietFlushTask.value < |loop.tasks| && !loop.tasks[quietFlushTask.value].Done? {
        return;
      }
      var due := QuietHoursEnd(config.quiet.value, loop.now);
      var delay := if due > loop.now then due - loop.now else 0;
      var id := loop.CreateTask(QuietCreated(due, delay));
      quietFlushTask := Some(id);
    }

    /** An alert up to its first suspension point. */
    method NotifyAndRecord(a: Alert)
      requires Valid() && a !in arrived
      modifies this, loop
      ensures Snapshot() == Apply(config, old(Snapshot()), ArriveAct(a))
    {
      arrived := arrived + [a];
      var suppressed := Rank(a.severity) < Rank(config.minSeverity);
      if !suppressed && a.severity != Critical {
        suppressed := IsNonCriticalMuted();
      }
      if suppressed { dropped := dropped + [a]; }
      if !suppressed && a.severity != Critical {
        var active := IsQuietHoursActive();
        if active {
          suppressed := true;
          quietQueue := quietQueue + [a];
          EnsureQuietFlushScheduled();
        }
      }
      if !suppressed && correlation.enabled {
        var _ := loop.CreateTask(Recording(a));
        return;
      }
      if !suppressed { loop.Broadcast(Alone(a)); }
    }

    /** The audit entry is written: the alert is handed to the correlation service. */
    method SubmitRecorded(task: nat)
      requires Valid() && task < |loop.tasks| && loop.tasks[task].Recording?
      modifies correlation, loop
      ensures Snapshot() == Apply(config, old(Snapshot()), SubmitAct(task))
    {
      var a := loop.tasks[task].alert;
      loop.Suspend(task, Done);
      correlation.Submit(a);
    }

    method OnMuteNonCritical(until: Option<Time>)
      modifies this`muteUntil
      ensures Snapshot() == Apply(config, old(Snapshot()), MuteAct(until))
    {
      muteUntil := until;
    }

    method BeginQuietDelay(task: nat)
      requires task < |loop.tasks| && loop.tasks[task].QuietCreated?
      modifies loop
      ensures Snapshot() == Apply(config, old(Snapshot()), StartQuietAct(task))
    {
      loop.Suspend(task, QuietSleeping(loop.tasks[task].due, loop.now + loop.tasks[task].delay));
    }

    method FlushQuietAlertQueue(task: nat)
      requires Enabled(config, Snapshot(), WakeQuietAct(task))
      modifies this, loop
      ensures Snapshot() == Apply(config, old(Snapshot()), WakeQuietAct(task))
    {
      if |quietQueue| == 0 {
        FinishQuietFlush(task);
        return;
      }
      var queued := quietQueue;
      quietQueue := [];
      var warnings, infos := CountSeverities(queued);
      var severity := if warnings > 0 then Warning else Info;
      loop.Suspend(task, QuietSending(loop.tasks[task].due));
      loop.Broadcast(Digest(queued, severity, warnings, infos));
    }

    static method CountSeverities(queued: seq<Alert>) returns (warnings: nat, infos: nat)
      ensures warnings == Count(queued, Warning) && infos == Count(queued, Info)
    {
      warnings, infos := 0, 0;
      for k := 0 to |queued|
        invariant warnings == Count(queued[..k], Warning) && infos == Count(queued[..k], Info)
      {
        assert queued[..k + 1][..k] == queued[..k];
        if queued[k].severity == Warning { warnings := warnings + 1; }
        if queued[k].severity == Info { infos := infos + 1; }
      }
      assert queued[..|queued|] == queued;
    }

    method FinishQuietFlush(task: nat)
      requires task < |loop.tasks|
      modifies this`quietFlushTask, loop
      ensures (View(), loop.View()) == FinishQuiet(old(View()), old(loop.View()), task)
    {
      quietFlushTask := None;
      loop.Suspend(task, Done);
    }
  }

  /** The event loop carries out any enabled step by calling the object that owns it. */
  method Perform(handler: AlertHandler, act: Action)
    requires handler.Valid() && Enabled(handler.config, handler.Snapshot(), act)
    modifies handler, handler.correlation, handler.loop
    ensures handler.Snapshot() == Apply(handler.config, old(handler.Snapshot()), act)
  {
    var correlation, loop := handler.correlation, handler.loop;
    match act
    case ArriveAct(a) => handler.NotifyAndRecord(a);
    case MuteAct(until) => handler.OnMuteNonCritical(until);
    case Advance(to) => loop.Tick(to);
    case StartQuietAct(task) => handler.BeginQuietDelay(task);
    case WakeQuietAct(task) => handler.FlushQuietAlertQueue(task);
    case FinishQuietAct(task) => handler.FinishQuietFlush(task);
    case SubmitAct(task) => handler.SubmitRecorded(task);
    case StartWindowAct(task) => correlation.BeginWindow(task);
    case WakeWindowAct(task) => correlation.WindowElapsed(task);
    case StartFlushAct(task, llm) => correlation.Flush(task, llm);
    case ReplyAct(task, related) => correlation.HandleReply(task, related);
    case SendNextAct(task) => correlation.SendNext(task, loop.tasks[task].rest);
  }

  /** Every run of the model is a run of the objects, step by step: so whatever holds of every
      reachable state of the model holds of the objects. */
  method Replay(config: Config, r: Run) returns (handler: AlertHandler)
    requires Legal(config, r)
    ensures handler.Valid() && handler.config == config
    ensures fresh(handler) && fresh(handler.correlation) && fresh(handler.loop)
    ensures handler.Snapshot() == After(config, r)
  {
    match r
    case Boot(at) =>
      var loop := new EventLoop(at);
      handler := new AlertHandler(config, loop);
    case Then(before, act) =>
      handler := Replay(config, before);
      Perform(handler, act);
  }
}
