/** The alert delivery pipeline as a step system: severity floor, mute, quiet-hours queue and
    correlation buffer. The code between two suspension points is one atomic step; a task is
    the rest of a coroutine waiting at its suspension point. Everything is interleaved freely. */
module AlertPipeline {
  import opened Common
  import opened QuietHours

  datatype Severity = Info | Warning | Critical

  function Rank(s: Severity): nat {
    match s
    case Info => 0
    case Warning => 1
    case Critical => 2
  }

  datatype Alert = Alert(id: nat, severity: Severity)

  datatype Message =
    | Alone(alert: Alert)
    | Digest(alerts: seq<Alert>, severity: Severity, warnings: nat, infos: nat)
    | Correlated(alerts: seq<Alert>, severity: Severity)

  function Carried(m: Message): seq<Alert> {
    if m.Alone? then [m.alert] else m.alerts
  }

  datatype Config = Config(minSeverity: Severity, quiet: Option<QuietWindow>, correlate: bool, windowLength: nat)

  datatype Task =
    | Recording(alert: Alert)                         // audit entry being written, submission follows
    | QuietCreated(due: Time, delay: nat)
    | QuietSleeping(due: Time, deadline: Time)
    | QuietSending(due: Time)                         // digest handed over, task not finished
    | WindowCreated(created: Time)
    | WindowSleeping(created: Time, started: Time)
    | FlushCreated
    | FlushAsking(batch: seq<Alert>)                  // waiting for the language model
    | FlushSending(rest: seq<Alert>)                  // sending the batch one by one
    | Done

  datatype Pending = Pending(alert: Alert, receivedAt: Time)

  datatype HandlerState = Handler(queue: seq<Alert>, flushTask: Option<nat>, muteUntil: Option<Time>,
                                  arrived: seq<Alert>, dropped: seq<Alert>)

  datatype BufferState = Buffer(pending: seq<Pending>, windowTask: Option<nat>)

  datatype LoopState = Loop(now: Time, tasks: seq<Task>, sent: seq<Message>)

  datatype State = State(h: HandlerState, b: BufferState, l: LoopState)

  // ----- the atomic steps of the alert handler

  predicate Unfinished(l: LoopState, task: Option<nat>) {
    task.Some? && task.value < |l.tasks| && !l.tasks[task.value].Done?
  }

  function Spawn(l: LoopState, t: Task): LoopState { l.(tasks := l.tasks + [t]) }

  function Become(l: LoopState, i: nat, t: Task): LoopState
    requires i < |l.tasks|
  {
    l.(tasks := l.tasks[i := t])
  }

  function Send(l: LoopState, m: Message): LoopState { l.(sent := l.sent + [m]) }

  predicate Muted(h: HandlerState, now: Time) { h.muteUntil.Some? && now < h.muteUntil.value }

  predicate QuietNow(c: Config, now: Time) { c.quiet.Some? && IsActive(c.quiet.value, now) }

  function EnsureFlushScheduled(c: Config, h: HandlerState, l: LoopState): (HandlerState, LoopState) {
    if c.quiet.None? || Unfinished(l, h.flushTask) then (h, l)
    else
      var due := QuietHoursEnd(c.quiet.value, l.now);
      (h.(flushTask := Some(|l.tasks|)), Spawn(l, QuietCreated(due, if due > l.now then due - l.now else 0)))
  }

  function Arrive(c: Config, h0: HandlerState, l: LoopState, a: Alert): (HandlerState, LoopState) {
    var h := h0.(arrived := h0.arrived + [a]);
    if Rank(a.severity) < Rank(c.minSeverity) then (h.(dropped := h.dropped + [a]), l)
    else if a.severity != Critical && Muted(h, l.now) then (h.(dropped := h.dropped + [a]), l)
    else
      var h := if a.severity != Critical then h.(muteUntil := None) else h;
      if a.severity != Critical && QuietNow(c, l.now) then
        EnsureFlushScheduled(c, h.(queue := h.queue + [a]), l)
      else if c.correlate then (h, Spawn(l, Recording(a)))
      else (h, Send(l, Alone(a)))
  }

  function Count(s: seq<Alert>, sev: Severity): nat {
    if s == [] then 0 else Count(s[..|s| - 1], sev) + (if s[|s| - 1].severity == sev then 1 else 0)
  }

  function QuietDigest(queue: seq<Alert>): Message {
    Digest(queue, if Count(queue, Warning) > 0 then Warning else Info, Count(queue, Warning), Count(queue, Info))
  }

  function StartQuiet(l: LoopState, i: nat): LoopState
    requires i < |l.tasks| && l.tasks[i].QuietCreated?
  {
    Become(l, i, QuietSleeping(l.tasks[i].due, l.now + l.tasks[i].delay))
  }

  function FinishQuiet(h: HandlerState, l: LoopState, i: nat): (HandlerState, LoopState)
    requires i < |l.tasks|
  {
    (h.(flushTask := None), Become(l, i, Done))
  }

  function WakeQuiet(h: HandlerState, l: LoopState, i: nat): (HandlerState, LoopState)
    requires i < |l.tasks| && l.tasks[i].QuietSleeping?
  {
    if h.queue == [] then FinishQuiet(h, l, i)
    else (h.(queue := []), Send(Become(l, i, QuietSending(l.tasks[i].due)), QuietDigest(h.queue)))
  }

  // ----- the atomic steps of the correlation service

  function SubmitAlert(b: BufferState, l: LoopState, a: Alert): (BufferState, LoopState) {
    var b1 := b.(pending := b.pending + [Pending(a, l.now)]);
    if Unfinished(l, b.windowTask) then (b1, l)
    else (b1.(windowTask := Some(|l.tasks|)), Spawn(l, WindowCreated(l.now)))
  }

  function WakeWindow(l: LoopState, i: nat): LoopState
    requires i < |l.tasks|
  {
    Spawn(Become(l, i, Done), FlushCreated)
  }

  function Alerts(p: seq<Pending>): (r: seq<Alert>)
    ensures |r| == |p| && forall k :: 0 <= k < |p| ==> r[k] == p[k].alert
  {
    seq(|p|, k requires 0 <= k < |p| => p[k].alert)
  }

  function SendFirst(l: LoopState, i: nat, batch: seq<Alert>): LoopState
    requires i < |l.tasks|
  {
    if batch == [] then Become(l, i, Done)
    else Send(Become(l, i, FlushSending(batch[1..])), Alone(batch[0]))
  }

  function StartFlush(b: BufferState, l: LoopState, i: nat, llm: bool): (BufferState, LoopState)
    requires i < |l.tasks|
  {
    var batch := Alerts(b.pending);
    var b1 := b.(pending := []);
    if batch == [] then (b, Become(l, i, Done))
    else if |batch| == 1 then (b1, Send(Become(l, i, Done), Alone(batch[0])))
    else if !llm then (b1, SendFirst(l, i, batch))
    else (b1, Become(l, i, FlushAsking(batch)))
  }

  function HighestSeverity(batch: seq<Alert>): Severity
    requires batch != []
  {
    var last := batch[|batch| - 1].severity;
    if |batch| == 1 then last
    else
      var before := HighestSeverity(batch[..|batch| - 1]);
      if Rank(last) > Rank(before) then last else before
  }

  /** The model's verdict: `related` stands for an answer that names a common root cause;
      a timeout, an error or any other answer is `!related`. */
  function Reply(l: LoopState, i: nat, related: bool): LoopState
    requires i < |l.tasks| && l.tasks[i].FlushAsking? && l.tasks[i].batch != []
  {
    var batch := l.tasks[i].batch;
    if related then Send(Become(l, i, Done), Correlated(batch, HighestSeverity(batch)))
    else SendFirst(l, i, batch)
  }

  // ----- runs

  datatype Action =
    | ArriveAct(alert: Alert)
    | MuteAct(until: Option<Time>)
    | Advance(to: Time)
    | StartQuietAct(task: nat)
    | WakeQuietAct(task: nat)
    | FinishQuietAct(task: nat)
    | SubmitAct(task: nat)
    | StartWindowAct(task: nat)
    | WakeWindowAct(task: nat)
    | StartFlushAct(task: nat, llm: bool)
    | ReplyAct(task: nat, related: bool)
    | SendNextAct(task: nat)

  ghost predicate Enabled(c: Config, s: State, act: Action) {
    match act
    case ArriveAct(a) => a !in s.h.arrived
    case MuteAct(_) => true
    case Advance(to) => s.l.now <= to
    case StartQuietAct(i) => i < |s.l.tasks| && s.l.tasks[i].QuietCreated?
    case WakeQuietAct(i) => i < |s.l.tasks| && s.l.tasks[i].QuietSleeping? && s.l.tasks[i].deadline <= s.l.now
    case FinishQuietAct(i) => i < |s.l.tasks| && s.l.tasks[i].QuietSending?
    case SubmitAct(i) => i < |s.l.tasks| && s.l.tasks[i].Recording?
    case StartWindowAct(i) => i < |s.l.tasks| && s.l.tasks[i].WindowCreated?
    case WakeWindowAct(i) => i < |s.l.tasks| && s.l.tasks[i].WindowSleeping?
                             && s.l.tasks[i].started + c.windowLength <= s.l.now
    case StartFlushAct(i, _) => i < |s.l.tasks| && s.l.tasks[i].FlushCreated?
    case ReplyAct(i, _) => i < |s.l.tasks| && s.l.tasks[i].FlushAsking? && s.l.tasks[i].batch != []
    case SendNextAct(i) => i < |s.l.tasks| && s.l.tasks[i].FlushSending?
  }

  ghost function Apply(c: Config, s: State, act: Action): State
    requires Enabled(c, s, act)
  {
    match act
    case ArriveAct(a) => var (h, l) := Arrive(c, s.h, s.l, a); State(h, s.b, l)
    case MuteAct(until) => s.(h := s.h.(muteUntil := until))
    case Advance(to) => s.(l := s.l.(now := to))
    case StartQuietAct(i) => s.(l := StartQuiet(s.l, i))
    case WakeQuietAct(i) => var (h, l) := WakeQuiet(s.h, s.l, i); State(h, s.b, l)
    case FinishQuietAct(i) => var (h, l) := FinishQuiet(s.h, s.l, i); State(h, s.b, l)
    case SubmitAct(i) => var (b, l) := SubmitAlert(s.b, Become(s.l, i, Done), s.l.tasks[i].alert); State(s.h, b, l)
    case StartWindowAct(i) => s.(l := Become(s.l, i, WindowSleeping(s.l.tasks[i].created, s.l.now)))
    case WakeWindowAct(i) => s.(l := WakeWindow(s.l, i))
    case StartFlushAct(i, llm) => var (b, l) := StartFlush(s.b, s.l, i, llm); State(s.h, b, l)
    case ReplyAct(i, related) => s.(l := Reply(s.l, i, related))
    case SendNextAct(i) => s.(l := SendFirst(s.l, i, s.l.tasks[i].rest))
  }

  /** A state as it would be at another time. */
  function At(s: State, x: Time): State { s.(l := s.l.(now := x)) }

  datatype Run = Boot(at: Time) | Then(before: Run, act: Action)

  ghost predicate Legal(c: Config, r: Run)
    decreases r, 0
  {
    r.Then? ==> Legal(c, r.before) && Enabled(c, After(c, r.before), r.act)
  }

  ghost function After(c: Config, r: Run): State
    requires Legal(c, r)
    decreases r, 1
  {
    match r
    case Boot(at) => State(Handler([], None, None, [], []), Buffer([], None), Loop(at, [], []))
    case Then(before, act) => Apply(c, After(c, before), act)
  }
}
