/** Conservation over every interleaving of the alert pipeline: no alert is lost, none is
    delivered twice. */
module AlertConservation {
  import opened Common
  import opened AlertPipeline

  function Held(t: Task): seq<Alert> {
    match t
    case Recording(a) => [a]
    case FlushAsking(batch) => batch
    case FlushSending(rest) => rest
    case _ => []
  }

  /** How often `a` occurs among the first `n` elements. */
  function Upto(s: seq<Alert>, a: Alert, n: nat): nat
    requires n <= |s|
  {
    if n == 0 then 0 else Upto(s, a, n - 1) + One(s[n - 1], a)
  }

  function One(x: Alert, a: Alert): nat { if x == a then 1 else 0 }

  function Times(s: seq<Alert>, a: Alert): nat { Upto(s, a, |s|) }

  lemma {:induction false} UptoShift(s: seq<Alert>, t: seq<Alert>, d: nat, a: Alert, n: nat)
    requires n <= |s| && d + n <= |t| && forall k :: 0 <= k < n ==> s[k] == t[d + k]
    ensures Upto(t, a, d + n) == Upto(t, a, d) + Upto(s, a, n)
  {
    if n > 0 { UptoShift(s, t, d, a, n - 1); }
  }

  lemma TimesMore(s: seq<Alert>, x: Alert, a: Alert)
    ensures Times(s + [x], a) == Times(s, a) + One(x, a)
  {
    UptoShift(s, s + [x], 0, a, |s|);
  }

  lemma TimesSingle(x: Alert, a: Alert)
    ensures Times([x], a) == One(x, a)
  {
    assert Upto([x], a, 0) == 0;
  }

  lemma TimesFirst(s: seq<Alert>, a: Alert)
    requires s != []
    ensures Times(s, a) == One(s[0], a) + Times(s[1..], a)
  {
    UptoShift(s[1..], s, 1, a, |s| - 1);
  }

  ghost function HeldUpto(tasks: seq<Task>, a: Alert, n: nat): nat
    requires n <= |tasks|
  {
    if n == 0 then 0 else HeldUpto(tasks, a, n - 1) + Times(Held(tasks[n - 1]), a)
  }

  ghost function SentUpto(sent: seq<Message>, a: Alert, n: nat): nat
    requires n <= |sent|
  {
    if n == 0 then 0 else SentUpto(sent, a, n - 1) + Times(Carried(sent[n - 1]), a)
  }

  /** How often an alert occurs in the whole system. */
  ghost function Everywhere(s: State, a: Alert): nat {
    HeldByHandler(s.h, a) + HeldByBuffer(s.b, a) + HeldByLoop(s.l, a)
  }

  lemma {:induction false} HeldSame(tasks: seq<Task>, other: seq<Task>, a: Alert, n: nat)
    requires n <= |tasks| && n <= |other| && forall k :: 0 <= k < n ==> tasks[k] == other[k]
    ensures HeldUpto(tasks, a, n) == HeldUpto(other, a, n)
  {
    if n > 0 { HeldSame(tasks, other, a, n - 1); }
  }

  lemma {:induction false} HeldBecome(tasks: seq<Task>, i: nat, t: Task, a: Alert, n: nat)
    requires i < n <= |tasks|
    ensures HeldUpto(tasks[i := t], a, n) + Times(Held(tasks[i]), a) == HeldUpto(tasks, a, n) + Times(Held(t), a)
  {
    if i < n - 1 {
      HeldBecome(tasks, i, t, a, n - 1);
    } else {
      HeldSame(tasks, tasks[i := t], a, n - 1);
    }
  }

  lemma {:induction false} SentSame(sent: seq<Message>, more: seq<Message>, a: Alert, n: nat)
    requires n <= |sent| && n <= |more| && forall k :: 0 <= k < n ==> sent[k] == more[k]
    ensures SentUpto(sent, a, n) == SentUpto(more, a, n)
  {
    if n > 0 { SentSame(sent, more, a, n - 1); }
  }

  /** How often an alert occurs among the tasks and the messages sent. */
  ghost function HeldByLoop(l: LoopState, a: Alert): nat {
    HeldUpto(l.tasks, a, |l.tasks|) + SentUpto(l.sent, a, |l.sent|)
  }

  lemma BecomeKeeps(l: LoopState, i: nat, t: Task, a: Alert)
    requires i < |l.tasks|
    ensures HeldByLoop(Become(l, i, t), a) + Times(Held(l.tasks[i]), a) == HeldByLoop(l, a) + Times(Held(t), a)
  {
    HeldBecome(l.tasks, i, t, a, |l.tasks|);
  }

  lemma SpawnKeeps(l: LoopState, t: Task, a: Alert)
    ensures HeldByLoop(Spawn(l, t), a) == HeldByLoop(l, a) + Times(Held(t), a)
  {
    HeldSame(l.tasks, l.tasks + [t], a, |l.tasks|);
  }

  lemma SendKeeps(l: LoopState, m: Message, a: Alert)
    ensures HeldByLoop(Send(l, m), a) == HeldByLoop(l, a) + Times(Carried(m), a)
  {
    SentSame(l.sent, l.sent + [m], a, |l.sent|);
  }

  lemma SendFirstKeeps(l: LoopState, i: nat, batch: seq<Alert>, a: Alert)
    requires i < |l.tasks|
    ensures HeldByLoop(SendFirst(l, i, batch), a) + Times(Held(l.tasks[i]), a) == HeldByLoop(l, a) + Times(batch, a)
  {
    if batch == [] {
      BecomeKeeps(l, i, Done, a);
    } else {
      BecomeKeeps(l, i, FlushSending(batch[1..]), a);
      SendKeeps(Become(l, i, FlushSending(batch[1..])), Alone(batch[0]), a);
      TimesFirst(batch, a);
      TimesSingle(batch[0], a);
    }
  }

  lemma ScheduleKeeps(c: Config, h: HandlerState, l: LoopState, a: Alert)
    ensures var (h1, l1) := EnsureFlushScheduled(c, h, l);
      h1.queue == h.queue && h1.dropped == h.dropped && HeldByLoop(l1, a) == HeldByLoop(l, a)
  {
    var (h1, l1) := EnsureFlushScheduled(c, h, l);
    if l1 != l { SpawnKeeps(l, l1.tasks[|l.tasks|], a); }
  }

  ghost function HeldByHandler(h: HandlerState, a: Alert): nat { Times(h.dropped, a) + Times(h.queue, a) }

  lemma ArriveKeeps(c: Config, h: HandlerState, l: LoopState, b: Alert, a: Alert)
    ensures var (h1, l1) := Arrive(c, h, l, b);
      HeldByHandler(h1, a) + HeldByLoop(l1, a) == HeldByHandler(h, a) + HeldByLoop(l, a) + One(b, a)
  {
    TimesSingle(b, a);
    TimesMore(h.dropped, b, a);
    TimesMore(h.queue, b, a);
    var h2 := if b.severity != Critical then h.(muteUntil := None) else h;
    ScheduleKeeps(c, h2.(arrived := h.arrived + [b], queue := h.queue + [b]), l, a);
    SpawnKeeps(l, Recording(b), a);
    SendKeeps(l, Alone(b), a);
  }

  lemma StartQuietKeeps(l: LoopState, i: nat, a: Alert)
    requires i < |l.tasks| && l.tasks[i].QuietCreated?
    ensures HeldByLoop(StartQuiet(l, i), a) == HeldByLoop(l, a)
  {
    BecomeKeeps(l, i, QuietSleeping(l.tasks[i].due, l.now + l.tasks[i].delay), a);
  }

  lemma WakeQuietKeeps(h: HandlerState, l: LoopState, i: nat, a: Alert)
    requires i < |l.tasks| && l.tasks[i].QuietSleeping?
    ensures var (h1, l1) := WakeQuiet(h, l, i);
      HeldByHandler(h1, a) + HeldByLoop(l1, a) == HeldByHandler(h, a) + HeldByLoop(l, a)
  {
    BecomeKeeps(l, i, Done, a);
    BecomeKeeps(l, i, QuietSending(l.tasks[i].due), a);
    SendKeeps(Become(l, i, QuietSending(l.tasks[i].due)), QuietDigest(h.queue), a);
  }

  ghost function HeldByBuffer(b: BufferState, a: Alert): nat { Times(Alerts(b.pending), a) }

  lemma SubmitKeeps(b: BufferState, l: LoopState, i: nat, a: Alert)
    requires i < |l.tasks| && l.tasks[i].Recording?
    ensures var (b1, l1) := SubmitAlert(b, Become(l, i, Done), l.tasks[i].alert);
      HeldByBuffer(b1, a) + HeldByLoop(l1, a) == HeldByBuffer(b, a) + HeldByLoop(l, a)
  {
    var x := l.tasks[i].alert;
    BecomeKeeps(l, i, Done, a);
    SpawnKeeps(Become(l, i, Done), WindowCreated(l.now), a);
    TimesSingle(x, a);
    TimesMore(Alerts(b.pending), x, a);
    assert Alerts(b.pending + [Pending(x, l.now)]) == Alerts(b.pending) + [x];
  }

  lemma StartFlushKeeps(b: BufferState, l: LoopState, i: nat, llm: bool, a: Alert)
    requires i < |l.tasks| && l.tasks[i].FlushCreated?
    ensures var (b1, l1) := StartFlush(b, l, i, llm);
      HeldByBuffer(b1, a) + HeldByLoop(l1, a) == HeldByBuffer(b, a) + HeldByLoop(l, a)
  {
    var batch := Alerts(b.pending);
    if |batch| <= 1 {
      BecomeKeeps(l, i, Done, a);
      if |batch| == 1 {
        SendKeeps(Become(l, i, Done), Alone(batch[0]), a);
        assert batch == [batch[0]];
      }
    } else if llm {
      BecomeKeeps(l, i, FlushAsking(batch), a);
    } else {
      SendFirstKeeps(l, i, batch, a);
    }
  }

  lemma ReplyKeeps(l: LoopState, i: nat, related: bool, a: Alert)
    requires i < |l.tasks| && l.tasks[i].FlushAsking? && l.tasks[i].batch != []
    ensures HeldByLoop(Reply(l, i, related), a) == HeldByLoop(l, a)
  {
    var batch := l.tasks[i].batch;
    BecomeKeeps(l, i, Done, a);
    SendKeeps(Become(l, i, Done), Correlated(batch, HighestSeverity(batch)), a);
    SendFirstKeeps(l, i, batch, a);
  }

  lemma StartWindowKeeps(l: LoopState, i: nat, a: Alert)
    requires i < |l.tasks| && l.tasks[i].WindowCreated?
    ensures HeldByLoop(Become(l, i, WindowSleeping(l.tasks[i].created, l.now)), a) == HeldByLoop(l, a)
  {
    BecomeKeeps(l, i, WindowSleeping(l.tasks[i].created, l.now), a);
  }

  lemma WakeWindowKeeps(l: LoopState, i: nat, a: Alert)
    requires i < |l.tasks| && l.tasks[i].WindowSleeping?
    ensures HeldByLoop(WakeWindow(l, i), a) == HeldByLoop(l, a)
  {
    BecomeKeeps(l, i, Done, a);
    SpawnKeeps(Become(l, i, Done), FlushCreated, a);
  }

  lemma SendNextKeeps(l: LoopState, i: nat, a: Alert)
    requires i < |l.tasks| && l.tasks[i].FlushSending?
    ensures HeldByLoop(SendFirst(l, i, l.tasks[i].rest), a) == HeldByLoop(l, a)
  {
    SendFirstKeeps(l, i, l.tasks[i].rest, a);
  }

  predicate OfHandler(act: Action) {
    act.ArriveAct? || act.MuteAct? || act.Advance? || act.StartQuietAct? || act.WakeQuietAct? || act.FinishQuietAct?
  }

  lemma HandlerStepKeeps(c: Config, s: State, act: Action, a: Alert)
    requires Enabled(c, s, act) && OfHandler(act)
    ensures Everywhere(Apply(c, s, act), a) == Everywhere(s, a) + (if act.ArriveAct? then One(act.alert, a) else 0)
  {
    match act
    case ArriveAct(b) => ArriveKeeps(c, s.h, s.l, b, a);
    case MuteAct(_) =>
    case Advance(_) =>
    case StartQuietAct(i) => StartQuietKeeps(s.l, i, a);
    case WakeQuietAct(i) => WakeQuietKeeps(s.h, s.l, i, a);
    case FinishQuietAct(i) => BecomeKeeps(s.l, i, Done, a);
  }

  lemma BufferStepKeeps(c: Config, s: State, act: Action, a: Alert)
    requires Enabled(c, s, act) && !OfHandler(act)
    ensures Everywhere(Apply(c, s, act), a) == Everywhere(s, a)
  {
    hide HeldByHandler, HeldByBuffer, HeldByLoop, SubmitAlert, Become, WakeWindow, StartFlush, Reply, SendFirst;
    match act
    case SubmitAct(i) => SubmitKeeps(s.b, s.l, i, a);
    case StartWindowAct(i) => StartWindowKeeps(s.l, i, a);
    case WakeWindowAct(i) => WakeWindowKeeps(s.l, i, a);
    case StartFlushAct(i, llm) => StartFlushKeeps(s.b, s.l, i, llm, a);
    case ReplyAct(i, related) => ReplyKeeps(s.l, i, related, a);
    case SendNextAct(i) => SendNextKeeps(s.l, i, a);
  }

  /** Only an arrival changes what is in the system, and it adds exactly the new alert. */
  lemma StepKeeps(c: Config, s: State, act: Action, a: Alert)
    requires Enabled(c, s, act)
    ensures Everywhere(Apply(c, s, act), a) == Everywhere(s, a) + (if act.ArriveAct? then One(act.alert, a) else 0)
  {
    if OfHandler(act) { HandlerStepKeeps(c, s, act, a); } else { BufferStepKeeps(c, s, act, a); }
  }

  /** Over every run each alert occurs in the system as often as it arrived: at most once. */
  lemma {:induction false} Conservation(c: Config, r: Run, a: Alert)
    requires Legal(c, r)
    ensures Everywhere(After(c, r), a) == Times(After(c, r).h.arrived, a) <= 1
  {
    if r.Then? {
      Conservation(c, r.before, a);
      ConservationStep(c, After(c, r.before), r.act, a);
    }
  }

  lemma ConservationStep(c: Config, s: State, act: Action, a: Alert)
    requires Enabled(c, s, act) && Everywhere(s, a) == Times(s.h.arrived, a) <= 1
    ensures Everywhere(Apply(c, s, act), a) == Times(Apply(c, s, act).h.arrived, a) <= 1
  {
    StepKeeps(c, s, act, a);
    ArrivedAfter(c, s, act);
    if act.ArriveAct? {
      TimesMore(s.h.arrived, act.alert, a);
      if Times(s.h.arrived, a) > 0 { var k := Find(s.h.arrived, a, |s.h.arrived|); }
    }
  }

  lemma ArrivedAfter(c: Config, s: State, act: Action)
    requires Enabled(c, s, act)
    ensures Apply(c, s, act).h.arrived == s.h.arrived + (if act.ArriveAct? then [act.alert] else [])
  {
  }

  /** Where an alert can be: one position of one container, one task or one message. */
  datatype Place =
    | InDropped(k: nat) | InQueue(k: nat) | InBuffer(k: nat) | InTask(k: nat, n: nat) | InMessage(k: nat, n: nat)

  ghost predicate IsAt(s: State, a: Alert, p: Place) {
    match p
    case InDropped(k) => k < |s.h.dropped| && s.h.dropped[k] == a
    case InQueue(k) => k < |s.h.queue| && s.h.queue[k] == a
    case InBuffer(k) => k < |s.b.pending| && s.b.pending[k].alert == a
    case InTask(k, n) => k < |s.l.tasks| && n < |Held(s.l.tasks[k])| && Held(s.l.tasks[k])[n] == a
    case InMessage(k, n) => k < |s.l.sent| && n < |Carried(s.l.sent[k])| && Carried(s.l.sent[k])[n] == a
  }

  /** An occurrence counts; two of them count twice. */
  lemma {:induction false} UptoAt(s: seq<Alert>, n: nat, k: nat, j: nat)
    requires k < n <= |s| && j < n && s[j] == s[k]
    ensures Upto(s, s[k], n) >= if j == k then 1 else 2
  {
    if k < n - 1 && j < n - 1 {
      UptoAt(s, n - 1, k, j);
    } else if k < n - 1 {
      UptoAt(s, n - 1, k, k);
    } else if j < n - 1 {
      UptoAt(s, n - 1, j, j);
    }
  }

  lemma {:induction false} HeldAt(tasks: seq<Task>, m: nat, a: Alert, k: nat, n: nat, k': nat, n': nat)
    requires k < m <= |tasks| && n < |Held(tasks[k])| && Held(tasks[k])[n] == a
    requires k' < m && n' < |Held(tasks[k'])| && Held(tasks[k'])[n'] == a
    ensures HeldUpto(tasks, a, m) >= if k == k' && n == n' then 1 else 2
  {
    var last := Held(tasks[m - 1]);
    if k < m - 1 && k' < m - 1 {
      HeldAt(tasks, m - 1, a, k, n, k', n');
    } else if k < m - 1 {
      HeldAt(tasks, m - 1, a, k, n, k, n);
      UptoAt(last, |last|, n', n');
    } else if k' < m - 1 {
      HeldAt(tasks, m - 1, a, k', n', k', n');
      UptoAt(last, |last|, n, n);
    } else {
      UptoAt(last, |last|, n, n');
    }
  }

  lemma {:induction false} SentAt(sent: seq<Message>, m: nat, a: Alert, k: nat, n: nat, k': nat, n': nat)
    requires k < m <= |sent| && n < |Carried(sent[k])| && Carried(sent[k])[n] == a
    requires k' < m && n' < |Carried(sent[k'])| && Carried(sent[k'])[n'] == a
    ensures SentUpto(sent, a, m) >= if k == k' && n == n' then 1 else 2
  {
    var last := Carried(sent[m - 1]);
    if k < m - 1 && k' < m - 1 {
      SentAt(sent, m - 1, a, k, n, k', n');
    } else if k < m - 1 {
      SentAt(sent, m - 1, a, k, n, k, n);
      UptoAt(last, |last|, n', n');
    } else if k' < m - 1 {
      SentAt(sent, m - 1, a, k', n', k', n');
      UptoAt(last, |last|, n, n);
    } else {
      UptoAt(last, |last|, n, n');
    }
  }

  lemma {:induction false} Find(s: seq<Alert>, a: Alert, n: nat) returns (k: nat)
    requires n <= |s| && Upto(s, a, n) > 0
    ensures k < |s| && s[k] == a
  {
    if s[n - 1] == a { k := n - 1; } else { k := Find(s, a, n - 1); }
  }

  lemma {:induction false} FindHeld(tasks: seq<Task>, a: Alert, m: nat) returns (k: nat, n: nat)
    requires m <= |tasks| && HeldUpto(tasks, a, m) > 0
    ensures k < |tasks| && n < |Held(tasks[k])| && Held(tasks[k])[n] == a
  {
    k := m - 1;
    if Times(Held(tasks[k]), a) > 0 {
      n := Find(Held(tasks[k]), a, |Held(tasks[k])|);
    } else {
      k, n := FindHeld(tasks, a, m - 1);
    }
  }

  lemma {:induction false} FindSent(sent: seq<Message>, a: Alert, m: nat) returns (k: nat, n: nat)
    requires m <= |sent| && SentUpto(sent, a, m) > 0
    ensures k < |sent| && n < |Carried(sent[k])| && Carried(sent[k])[n] == a
  {
    k := m - 1;
    if Times(Carried(sent[k]), a) > 0 {
      n := Find(Carried(sent[k]), a, |Carried(sent[k])|);
    } else {
      k, n := FindSent(sent, a, m - 1);
    }
  }

  lemma SomePlace(s: State, a: Alert) returns (p: Place)
    requires Everywhere(s, a) > 0
    ensures IsAt(s, a, p)
  {
    if Times(s.h.dropped, a) > 0 {
      var k := Find(s.h.dropped, a, |s.h.dropped|);
      p := InDropped(k);
    } else if Times(s.h.queue, a) > 0 {
      var k := Find(s.h.queue, a, |s.h.queue|);
      p := InQueue(k);
    } else if HeldByBuffer(s.b, a) > 0 {
      var k := Find(Alerts(s.b.pending), a, |s.b.pending|);
      p := InBuffer(k);
    } else if HeldUpto(s.l.tasks, a, |s.l.tasks|) > 0 {
      var k, n := FindHeld(s.l.tasks, a, |s.l.tasks|);
      p := InTask(k, n);
    } else {
      var k, n := FindSent(s.l.sent, a, |s.l.sent|);
      p := InMessage(k, n);
    }
  }

  /** What one place, or two places in one container, contribute to that container's count. */
  ghost predicate Weighs(s: State, a: Alert, p: Place, w: nat) {
    match p
    case InDropped(_) => Times(s.h.dropped, a) >= w
    case InQueue(_) => Times(s.h.queue, a) >= w
    case InBuffer(_) => HeldByBuffer(s.b, a) >= w
    case InTask(_, _) => HeldUpto(s.l.tasks, a, |s.l.tasks|) >= w
    case InMessage(_, _) => SentUpto(s.l.sent, a, |s.l.sent|) >= w
  }

  predicate SameContainer(p: Place, q: Place) {
    p.InDropped? == q.InDropped? && p.InQueue? == q.InQueue? && p.InBuffer? == q.InBuffer? && p.InTask? == q.InTask?
  }

  lemma Weigh(s: State, a: Alert, p: Place, q: Place)
    requires IsAt(s, a, p) && IsAt(s, a, q) && SameContainer(p, q)
    ensures Weighs(s, a, p, if p == q then 1 else 2)
  {
    match p
    case InDropped(k) => UptoAt(s.h.dropped, |s.h.dropped|, k, q.k);
    case InQueue(k) => UptoAt(s.h.queue, |s.h.queue|, k, q.k);
    case InBuffer(k) => UptoAt(Alerts(s.b.pending), |s.b.pending|, k, q.k);
    case InTask(k, n) => HeldAt(s.l.tasks, |s.l.tasks|, a, k, n, q.k, q.n);
    case InMessage(k, n) => SentAt(s.l.sent, |s.l.sent|, a, k, n, q.k, q.n);
  }

  lemma TwoPlaces(s: State, a: Alert, p: Place, q: Place)
    requires IsAt(s, a, p) && IsAt(s, a, q) && p != q
    ensures Everywhere(s, a) >= 2
  {
    if SameContainer(p, q) {
      Weigh(s, a, p, q);
    } else {
      Weigh(s, a, p, p);
      Weigh(s, a, q, q);
    }
  }

  /** In every interleaving, every alert that arrived is at exactly one place. */
  lemma ExactlyOnePlace(c: Config, r: Run, a: Alert) returns (p: Place)
    requires Legal(c, r) && a in After(c, r).h.arrived
    ensures IsAt(After(c, r), a, p)
    ensures forall q :: IsAt(After(c, r), a, q) ==> q == p
  {
    var s := After(c, r);
    Conservation(c, r, a);
    var k: nat :| k < |s.h.arrived| && s.h.arrived[k] == a;
    UptoAt(s.h.arrived, |s.h.arrived|, k, k);
    p := SomePlace(s, a);
    forall q | IsAt(s, a, q) ensures q == p {
      if q != p { TwoPlaces(s, a, p, q); }
    }
  }
}
