/** What every reachable state of the alert pipeline keeps: severities, and that whatever waits
    in the quiet-hours queue or the correlation buffer has a task that will take it out. */
module AlertWakeups {
  import opened Common
  import opened QuietHours
  import opened AlertPipeline
  import opened AlertConservation

  // ----- severities

  ghost predicate NonCritical(s: seq<Alert>) {
    forall k :: 0 <= k < |s| ==> s[k].severity != Critical
  }

  ghost predicate NoneAboveInfo(s: seq<Alert>) {
    forall k :: 0 <= k < |s| ==> s[k].severity == Info
  }

  ghost predicate IsHighest(sev: Severity, s: seq<Alert>) {
    && (exists k :: 0 <= k < |s| && s[k].severity == sev)
    && forall k :: 0 <= k < |s| ==> Rank(s[k].severity) <= Rank(sev)
  }

  ghost predicate WellRated(m: Message) {
    match m
    case Alone(_) => true
    case Digest(alerts, sev, warnings, infos) =>
      NonCritical(alerts) && IsHighest(sev, alerts) && warnings + infos == |alerts|
      && warnings == Count(alerts, Warning) && infos == Count(alerts, Info)
    case Correlated(alerts, sev) => |alerts| >= 2 && IsHighest(sev, alerts)
  }

  ghost predicate Rated(s: State) {
    && NonCritical(s.h.dropped)
    && NonCritical(s.h.queue)
    && (forall k :: 0 <= k < |s.l.sent| ==> WellRated(s.l.sent[k]))
    && (forall i :: 0 <= i < |s.l.tasks| && s.l.tasks[i].FlushAsking? ==> |s.l.tasks[i].batch| >= 2)
  }

  lemma {:induction false} CountsAddUp(s: seq<Alert>)
    requires NonCritical(s)
    ensures Count(s, Warning) + Count(s, Info) == |s|
    ensures Count(s, Warning) > 0 <==> exists k :: 0 <= k < |s| && s[k].severity == Warning
  {
    if s != [] {
      var n := |s| - 1;
      CountsAddUp(s[..n]);
      assert s == s[..n] + [s[n]];
      if Count(s[..n], Warning) > 0 {
        var k :| 0 <= k < n && s[..n][k].severity == Warning;
        assert s[k].severity == Warning;
      }
    }
  }

  /** The severity found occurs, and none ranks above it: it is critical if there is a critical
      alert, and info only if all are. */
  lemma {:induction false} HighestIsHighest(s: seq<Alert>)
    requires s != []
    ensures IsHighest(HighestSeverity(s), s)
    ensures HighestSeverity(s) == Critical <==> exists k :: 0 <= k < |s| && s[k].severity == Critical
    ensures HighestSeverity(s) == Info <==> NoneAboveInfo(s)
  {
    var n := |s| - 1;
    if n > 0 {
      HighestIsHighest(s[..n]);
      var k :| 0 <= k < n && s[..n][k].severity == HighestSeverity(s[..n]);
      assert s[k].severity == HighestSeverity(s[..n]) && s[n].severity == s[n].severity;
      assert forall j :: 0 <= j < n ==> s[j] == s[..n][j];
    }
  }

  ghost function Those(s: seq<Alert>, sev: Severity): set<nat> {
    set k: nat | k < |s| && s[k].severity == sev
  }

  /** A count is the number of alerts of that severity. */
  lemma {:induction false} CountIsNumber(s: seq<Alert>, sev: Severity)
    ensures Count(s, sev) == |Those(s, sev)|
  {
    if s != [] {
      var n: nat := |s| - 1;
      CountIsNumber(s[..n], sev);
      assert Those(s, sev) == Those(s[..n], sev) + (if s[n].severity == sev then {n} else {});
    } else {
      assert Those(s, sev) == {};
    }
  }

  lemma DigestIsRated(queue: seq<Alert>)
    requires queue != [] && NonCritical(queue)
    ensures WellRated(QuietDigest(queue))
  {
    CountsAddUp(queue);
    if Count(queue, Warning) == 0 { assert queue[0].severity == Info; }
  }

  lemma RatedHandlerStep(c: Config, s: State, act: Action)
    requires Enabled(c, s, act) && OfHandler(act) && Rated(s)
    ensures Rated(Apply(c, s, act))
  {
    if act.WakeQuietAct? && s.h.queue != [] { DigestIsRated(s.h.queue); }
  }

  lemma RatedBufferStep(c: Config, s: State, act: Action)
    requires Enabled(c, s, act) && !OfHandler(act) && Rated(s)
    ensures Rated(Apply(c, s, act))
  {
    if act.ReplyAct? { HighestIsHighest(s.l.tasks[act.task].batch); }
  }

  /** In every reachable state: nothing critical was dropped or queued, every digest's counts
      add up to its length, and a digest or correlated message carries its highest severity. */
  lemma {:induction false} SeveritiesKept(c: Config, r: Run)
    requires Legal(c, r)
    ensures Rated(After(c, r))
  {
    if r.Then? {
      SeveritiesKept(c, r.before);
      if OfHandler(r.act) {
        RatedHandlerStep(c, After(c, r.before), r.act);
      } else {
        RatedBufferStep(c, After(c, r.before), r.act);
      }
    }
  }

  // ----- the quiet-hours queue

  predicate IsQuietTask(t: Task) { t.QuietCreated? || t.QuietSleeping? || t.QuietSending? }

  ghost predicate OpensAt(c: Config, due: Time) {
    c.quiet.Some? && forall t :: due <= t < due + OpenStretch(c.quiet.value) ==> !IsActive(c.quiet.value, t)
  }

  ghost predicate QuietTaskOk(c: Config, s: State, i: nat)
    requires i < |s.l.tasks|
  {
    var t := s.l.tasks[i];
    IsQuietTask(t) ==>
      && s.h.flushTask == Some(i)
      && OpensAt(c, t.due)
      && (t.QuietCreated? ==> t.due <= s.l.now + t.delay)
      && (t.QuietSleeping? ==> t.due <= t.deadline)
      && (t.QuietSending? ==> t.due <= s.l.now)
      && (t.QuietSending? && s.h.queue != [] ==> t.due + OpenStretch(c.quiet.value) <= s.l.now)
  }

  ghost predicate QuietOk(c: Config, s: State) {
    && (s.h.flushTask.Some? ==> s.h.flushTask.value < |s.l.tasks| && IsQuietTask(s.l.tasks[s.h.flushTask.value]))
    && forall i :: 0 <= i < |s.l.tasks| ==> QuietTaskOk(c, s, i)
  }

  lemma QuietArrival(c: Config, s: State, a: Alert)
    requires QuietOk(c, s) && Enabled(c, s, ArriveAct(a))
    ensures QuietOk(c, Apply(c, s, ArriveAct(a)))
  {
    var t := Apply(c, s, ArriveAct(a));
    if QuietNow(c, s.l.now) { OpenAfterEnd(c.quiet.value, s.l.now); }
    assert t.h.flushTask == s.h.flushTask || t.h.flushTask == Some(|s.l.tasks|);
    forall i | 0 <= i < |t.l.tasks| ensures QuietTaskOk(c, t, i) {
      if i < |s.l.tasks| { assert QuietTaskOk(c, s, i); }
    }
  }

  lemma QuietHandlerStep(c: Config, s: State, act: Action)
    requires QuietOk(c, s) && Enabled(c, s, act) && OfHandler(act) && !act.ArriveAct?
    ensures QuietOk(c, Apply(c, s, act))
  {
    var t := Apply(c, s, act);
    if act.FinishQuietAct? || act.WakeQuietAct? { assert QuietTaskOk(c, s, act.task); }
    forall i | 0 <= i < |t.l.tasks| ensures QuietTaskOk(c, t, i) {
      if i < |s.l.tasks| { assert QuietTaskOk(c, s, i); }
    }
  }

  lemma QuietBufferStep(c: Config, s: State, act: Action)
    requires QuietOk(c, s) && Enabled(c, s, act) && !OfHandler(act)
    ensures QuietOk(c, Apply(c, s, act))
  {
    var t := Apply(c, s, act);
    forall i | 0 <= i < |t.l.tasks| ensures QuietTaskOk(c, t, i) {
      if i < |s.l.tasks| { assert QuietTaskOk(c, s, i); }
    }
  }

  lemma QuietStep(c: Config, s: State, act: Action)
    requires QuietOk(c, s) && Enabled(c, s, act)
    ensures QuietOk(c, Apply(c, s, act))
  {
    hide QuietOk, Apply, Enabled;
    if act.ArriveAct? {
      QuietArrival(c, s, act.alert);
    } else if OfHandler(act) {
      QuietHandlerStep(c, s, act);
    } else {
      QuietBufferStep(c, s, act);
    }
  }

  lemma {:induction false} QuietKept(c: Config, r: Run)
    requires Legal(c, r)
    ensures QuietOk(c, After(c, r))
  {
    if r.Then? {
      QuietKept(c, r.before);
      QuietStep(c, After(c, r.before), r.act);
    }
  }

  /** No lost wake-up: what waits in the quiet queue has an unfinished flush task. */
  ghost predicate QueueServed(s: State) {
    s.h.queue != [] ==> Unfinished(s.l, s.h.flushTask)
  }

  /** Every flush of the run ends at most `d` after the time it was due. */
  ghost predicate FlushesWithin(c: Config, r: Run, d: nat)
    requires Legal(c, r)
  {
    r.Then? ==>
      && FlushesWithin(c, r.before, d)
      && (r.act.FinishQuietAct? ==>
            var s := After(c, r.before); s.l.now <= s.l.tasks[r.act.task].due + d)
  }

  lemma ServedStep(c: Config, s: State, act: Action)
    requires QuietOk(c, s) && QueueServed(s) && Enabled(c, s, act)
    requires act.FinishQuietAct? ==> s.h.queue == []
    ensures QueueServed(Apply(c, s, act))
  {
    if act.FinishQuietAct? || act.WakeQuietAct? {
      assert QuietTaskOk(c, s, act.task);
    }
  }

  lemma {:induction false} QueueServedThroughout(c: Config, r: Run, d: nat)
    requires Legal(c, r) && c.quiet.Some? && d < OpenStretch(c.quiet.value) && FlushesWithin(c, r, d)
    ensures QueueServed(After(c, r))
  {
    if r.Then? {
      QueueServedThroughout(c, r.before, d);
      QuietKept(c, r.before);
      var s := After(c, r.before);
      if r.act.FinishQuietAct? { assert QuietTaskOk(c, s, r.act.task); }
      ServedStep(c, s, r.act);
    }
  }

  /** The run that strands an alert: one is queued when quiet hours begin, its digest is sent
      late, when quiet hours begin again, and another alert arrives before that flush ends. */
  ghost function StrandingRun(w: QuietWindow): Run {
    var first := Then(Boot(StartOfDay(w)), ArriveAct(Alert(0, Warning)));
    var late := QuietHoursEnd(w, StartOfDay(w)) + OpenStretch(w);
    var woken := Then(Then(Then(first, StartQuietAct(0)), Advance(late)), WakeQuietAct(0));
    Then(Then(woken, ArriveAct(Alert(1, Warning))), FinishQuietAct(0))
  }

  lemma OneMore(c: Config, r: Run, act: Action, bound: nat)
    requires Legal(c, r) && Enabled(c, After(c, r), act)
    ensures Legal(c, Then(r, act)) && After(c, Then(r, act)) == Apply(c, After(c, r), act)
    ensures FlushesWithin(c, r, bound)
      && (act.FinishQuietAct? ==> After(c, r).l.now <= After(c, r).l.tasks[act.task].due + bound)
      ==> FlushesWithin(c, Then(r, act), bound)
    ensures StartsWithin(c, r, bound)
      && (act.StartWindowAct? ==> After(c, r).l.now <= After(c, r).l.tasks[act.task].created + bound)
      ==> StartsWithin(c, Then(r, act), bound)
  {
  }

  /** Up to the late wake-up: the first alert's digest is out, its flush not yet finished. */
  lemma StrandingPrefix(c: Config, a: Alert, late: Time, d: nat) returns (r: Run)
    requires c.quiet.Some? && c.minSeverity != Critical && a == Alert(0, Warning)
    requires late == QuietHoursEnd(c.quiet.value, StartOfDay(c.quiet.value)) + OpenStretch(c.quiet.value)
    ensures r == StrandingRun(c.quiet.value).before.before
    ensures Legal(c, r) && FlushesWithin(c, r, d)
    ensures After(c, r).h == Handler([], Some(0), None, [a], [])
    ensures After(c, r).l.now == late
    ensures After(c, r).l.tasks == [QuietSending(late - OpenStretch(c.quiet.value))]
  {
    hide StartsWithin, QuietHoursEnd, OpenStretch;
    var w := c.quiet.value;
    var start := StartOfDay(w);
    EndIsAheadIff(w, start);
    var due := QuietHoursEnd(w, start);
    var h := Handler([a], Some(0), None, [a], []);
    var empty := Buffer([], None);
    r := Boot(start);
    OneMore(c, r, ArriveAct(a), d);
    r := Then(r, ArriveAct(a));
    assert After(c, r) == State(h, empty, Loop(start, [QuietCreated(due, due - start)], []));
    OneMore(c, r, StartQuietAct(0), d);
    r := Then(r, StartQuietAct(0));
    assert After(c, r) == State(h, empty, Loop(start, [QuietSleeping(due, due)], []));
    OneMore(c, r, Advance(late), d);
    r := Then(r, Advance(late));
    OneMore(c, r, WakeQuietAct(0), d);
    r := Then(r, WakeQuietAct(0));
  }

  lemma StrandingRunStrands(c: Config, d: nat)
    requires c.quiet.Some? && c.minSeverity != Critical && OpenStretch(c.quiet.value) <= d
    ensures var r := StrandingRun(c.quiet.value);
      Legal(c, r) && FlushesWithin(c, r, d) && !QueueServed(After(c, r))
  {
    hide StartsWithin, QuietHoursEnd, OpenStretch;
    var w := c.quiet.value;
    var late := QuietHoursEnd(w, StartOfDay(w)) + OpenStretch(w);
    OpenAfterEnd(w, StartOfDay(w));
    var a, b := Alert(0, Warning), Alert(1, Warning);
    var r := StrandingPrefix(c, a, late, d);
    OneMore(c, r, ArriveAct(b), d);
    var r1 := Then(r, ArriveAct(b));
    assert After(c, r1).h == Handler([b], Some(0), None, [a, b], []) && After(c, r1).l == After(c, r).l;
    OneMore(c, r1, FinishQuietAct(0), d);
  }

  /** Exactly when no alert is ever stranded in the quiet queue: the time flushes may take has
      to be shorter than the daily stretch without quiet hours. With equal ends that stretch is
      empty and no bound helps. (With the floor at critical nothing is queued at all.) */
  lemma QueueServedIff(c: Config, d: nat)
    requires c.quiet.Some?
    ensures (forall r :: Legal(c, r) && FlushesWithin(c, r, d) ==> QueueServed(After(c, r)))
      <==> d < OpenStretch(c.quiet.value) || c.minSeverity == Critical
  {
    if c.minSeverity == Critical {
      forall r | Legal(c, r) ensures After(c, r).h.queue == [] { QueueUnused(c, r); }
    } else if d < OpenStretch(c.quiet.value) {
      forall r | Legal(c, r) && FlushesWithin(c, r, d) ensures QueueServed(After(c, r)) {
        QueueServedThroughout(c, r, d);
      }
    } else {
      StrandingRunStrands(c, d);
    }
  }

  lemma {:induction false} QueueUnused(c: Config, r: Run)
    requires Legal(c, r) && (c.minSeverity == Critical || c.quiet.None?)
    ensures After(c, r).h.queue == []
  {
    if r.Then? { QueueUnused(c, r.before); }
  }

  // ----- the correlation buffer

  predicate IsWindow(t: Task) { t.WindowCreated? || t.WindowSleeping? }

  ghost predicate WindowTaskOk(s: State, i: nat)
    requires i < |s.l.tasks|
  {
    var t := s.l.tasks[i];
    && (IsWindow(t) ==> s.b.windowTask == Some(i) && t.created <= s.l.now)
    && (t.WindowSleeping? ==> t.created <= t.started)
  }

  /** A flush about to run, or an open window created before any buffered alert came. */
  ghost predicate Covered(s: State) {
    s.b.pending != [] ==>
      || (exists i :: 0 <= i < |s.l.tasks| && s.l.tasks[i].FlushCreated?)
      || (s.b.windowTask.Some? && s.b.windowTask.value < |s.l.tasks| && IsWindow(s.l.tasks[s.b.windowTask.value])
          && forall k :: 0 <= k < |s.b.pending| ==>
               s.l.tasks[s.b.windowTask.value].created <= s.b.pending[k].receivedAt)
  }

  /** The handle of the window and the tasks agree. */
  ghost predicate WindowTasksOk(s: State) {
    && (s.b.windowTask.Some? ==>
          s.b.windowTask.value < |s.l.tasks|
          && var w := s.l.tasks[s.b.windowTask.value]; IsWindow(w) || w.Done?)
    && forall i :: 0 <= i < |s.l.tasks| ==> WindowTaskOk(s, i)
  }

  ghost predicate WindowOk(s: State) { WindowTasksOk(s) && Covered(s) }

  lemma CoveredStill(s: State, t: State)
    requires Covered(s) && t.b == s.b && |s.l.tasks| <= |t.l.tasks|
    requires forall i :: 0 <= i < |s.l.tasks| && s.l.tasks[i].FlushCreated? ==> t.l.tasks[i] == s.l.tasks[i]
    requires forall i :: 0 <= i < |s.l.tasks| && IsWindow(s.l.tasks[i]) ==>
      || (IsWindow(t.l.tasks[i]) && t.l.tasks[i].created == s.l.tasks[i].created)
      || exists j :: 0 <= j < |t.l.tasks| && t.l.tasks[j].FlushCreated?
    ensures Covered(t)
  {
    if exists i :: 0 <= i < |s.l.tasks| && s.l.tasks[i].FlushCreated? {
      var i :| 0 <= i < |s.l.tasks| && s.l.tasks[i].FlushCreated?;
      assert t.l.tasks[i].FlushCreated?;
    }
  }

  lemma SubmitCovers(c: Config, s: State, i: nat)
    requires WindowOk(s) && Enabled(c, s, SubmitAct(i))
    ensures Covered(Apply(c, s, SubmitAct(i)))
  {
    var t := Apply(c, s, SubmitAct(i));
    if Unfinished(Become(s.l, i, Done), s.b.windowTask) {
      assert WindowTaskOk(s, s.b.windowTask.value);
      if exists j :: 0 <= j < |s.l.tasks| && s.l.tasks[j].FlushCreated? {
        var j :| 0 <= j < |s.l.tasks| && s.l.tasks[j].FlushCreated?;
        assert t.l.tasks[j].FlushCreated?;
      }
    } else if s.b.pending != [] {
      var j :| 0 <= j < |s.l.tasks| && s.l.tasks[j].FlushCreated?;
      assert t.l.tasks[j].FlushCreated?;
    }
  }

  lemma WindowTasksHandlerStep(c: Config, s: State, act: Action)
    requires WindowTasksOk(s) && Enabled(c, s, act) && OfHandler(act)
    ensures WindowTasksOk(Apply(c, s, act))
  {
    var t := Apply(c, s, act);
    forall i | 0 <= i < |t.l.tasks| ensures WindowTaskOk(t, i) {
      if i < |s.l.tasks| { assert WindowTaskOk(s, i); }
    }
  }

  lemma WindowTasksBufferStep(c: Config, s: State, act: Action)
    requires WindowTasksOk(s) && Enabled(c, s, act) && !OfHandler(act)
    ensures WindowTasksOk(Apply(c, s, act))
  {
    var t := Apply(c, s, act);
    forall i | 0 <= i < |t.l.tasks| ensures WindowTaskOk(t, i) {
      if i < |s.l.tasks| { assert WindowTaskOk(s, i); }
    }
  }

  lemma WindowTasksStep(c: Config, s: State, act: Action)
    requires WindowTasksOk(s) && Enabled(c, s, act)
    ensures WindowTasksOk(Apply(c, s, act))
  {
    hide WindowTasksOk, Enabled, Apply;
    if OfHandler(act) { WindowTasksHandlerStep(c, s, act); } else { WindowTasksBufferStep(c, s, act); }
  }

  lemma CoveredStep(c: Config, s: State, act: Action)
    requires WindowOk(s) && Enabled(c, s, act)
    ensures Covered(Apply(c, s, act))
  {
    var t := Apply(c, s, act);
    match act
    case SubmitAct(i) => SubmitCovers(c, s, i);
    case StartFlushAct(_, _) =>
    case WakeWindowAct(_) =>
      assert t.l.tasks[|s.l.tasks|].FlushCreated?;
    case _ => CoveredStill(s, t);
  }

  lemma {:induction false} WindowKept(c: Config, r: Run)
    requires Legal(c, r)
    ensures WindowOk(After(c, r))
  {
    if r.Then? {
      WindowKept(c, r.before);
      WindowTasksStep(c, After(c, r.before), r.act);
      CoveredStep(c, After(c, r.before), r.act);
    }
  }

  /** Every window of the run starts sleeping at most `lag` after it was created. */
  ghost predicate StartsWithin(c: Config, r: Run, lag: nat)
    requires Legal(c, r)
  {
    r.Then? ==>
      && StartsWithin(c, r.before, lag)
      && (r.act.StartWindowAct? ==>
            var s := After(c, r.before); s.l.now <= s.l.tasks[r.act.task].created + lag)
  }

  ghost predicate StartedWithin(s: State, lag: nat) {
    forall i :: 0 <= i < |s.l.tasks| && s.l.tasks[i].WindowSleeping? ==>
      s.l.tasks[i].started <= s.l.tasks[i].created + lag
  }

  lemma StartsStep(c: Config, s: State, act: Action, lag: nat)
    requires Enabled(c, s, act) && StartedWithin(s, lag)
    requires act.StartWindowAct? ==> s.l.now <= s.l.tasks[act.task].created + lag
    ensures StartedWithin(Apply(c, s, act), lag)
  {
    var t := Apply(c, s, act);
    forall i | 0 <= i < |t.l.tasks| && t.l.tasks[i].WindowSleeping?
      ensures t.l.tasks[i].started <= t.l.tasks[i].created + lag
    {
      assert i < |s.l.tasks| && (t.l.tasks[i] == s.l.tasks[i] || act == StartWindowAct(i));
    }
  }

  lemma {:induction false} StartsKept(c: Config, r: Run, lag: nat)
    requires Legal(c, r) && StartsWithin(c, r, lag)
    ensures StartedWithin(After(c, r), lag)
  {
    hide StartedWithin, Enabled, Apply;
    if r.Then? {
      StartsKept(c, r.before, lag);
      StartsStep(c, After(c, r.before), r.act, lag);
    } else {
      NothingStarted(r.at, lag);
    }
  }

  lemma NothingStarted(at: Time, lag: nat)
    ensures StartedWithin(State(Handler([], None, None, [], []), Buffer([], None), Loop(at, [], [])), lag)
  {
  }

  /** A window's task can be woken at an instant and ever after. */
  ghost predicate WakesBy(c: Config, s: State, i: nat, x: Time) {
    forall later :: x <= later ==> Enabled(c, At(s, later), WakeWindowAct(i))
  }

  /** No lost wake-up: buffered alerts have a flush created but not begun, a window about to
      sleep, or a sleeping window that wakes within the window length (plus `slack`) of every
      buffered alert's receipt, the oldest included. */
  ghost predicate BufferServed(c: Config, s: State, slack: int) {
    s.b.pending != [] ==>
      || (exists i :: 0 <= i < |s.l.tasks| && (s.l.tasks[i].FlushCreated? || s.l.tasks[i].WindowCreated?))
      || (exists i :: 0 <= i < |s.l.tasks| && s.l.tasks[i].WindowSleeping?
            && forall k :: 0 <= k < |s.b.pending| ==>
                 WakesBy(c, s, i, s.b.pending[k].receivedAt + c.windowLength + slack))
  }

  lemma BufferServedThroughout(c: Config, r: Run, lag: nat, slack: int)
    requires Legal(c, r) && StartsWithin(c, r, lag) && lag <= slack
    ensures BufferServed(c, After(c, r), slack)
  {
    WindowKept(c, r);
    StartsKept(c, r, lag);
    var s := After(c, r);
    if s.b.pending != [] && s.b.windowTask.Some? {
      var i := s.b.windowTask.value;
      assert i < |s.l.tasks|;
      if s.l.tasks[i].WindowSleeping? && !(exists j :: 0 <= j < |s.l.tasks| && s.l.tasks[j].FlushCreated?) {
        assert s.l.tasks[i].started <= s.l.tasks[i].created + lag;
      }
    }
  }

  lemma LateStart(c: Config, lag: nat, slack: int) returns (r: Run)
    requires c.correlate && slack < lag
    ensures Legal(c, r) && StartsWithin(c, r, lag) && !BufferServed(c, After(c, r), slack)
  {
    var a := Alert(0, Critical);
    r := Boot(0);
    OneMore(c, r, ArriveAct(a), lag);
    r := Then(r, ArriveAct(a));
    OneMore(c, r, SubmitAct(0), lag);
    r := Then(r, SubmitAct(0));
    assert After(c, r).l == Loop(0, [Done, WindowCreated(0)], []);
    OneMore(c, r, Advance(lag), lag);
    r := Then(r, Advance(lag));
    OneMore(c, r, StartWindowAct(1), lag);
    r := Then(r, StartWindowAct(1));
    assert After(c, r).l == Loop(lag, [Done, WindowSleeping(0, lag)], []);
    assert After(c, r).b.pending[0].receivedAt == 0;
    assert !Enabled(c, At(After(c, r), c.windowLength + slack), WakeWindowAct(1));
  }

  /** Exactly how late a buffered alert's window may wake: by the time a new task may wait
      before it begins. In particular the deadline is the oldest receipt plus the window
      length precisely when new tasks begin at once. */
  lemma BufferServedIff(c: Config, lag: nat, slack: int)
    requires c.correlate
    ensures (forall r :: Legal(c, r) && StartsWithin(c, r, lag) ==> BufferServed(c, After(c, r), slack))
      <==> lag <= slack
  {
    if lag <= slack {
      forall r | Legal(c, r) && StartsWithin(c, r, lag) ensures BufferServed(c, After(c, r), slack) {
        BufferServedThroughout(c, r, lag, slack);
      }
    } else {
      var r := LateStart(c, lag, slack);
    }
  }

  /** Once every task has finished, every alert that arrived has been dropped or sent, and a
      critical one sent: nothing stays behind in the queue or the buffer. */
  lemma NothingLeftBehind(c: Config, r: Run, d: nat, a: Alert) returns (p: Place)
    requires Legal(c, r) && a in After(c, r).h.arrived
    requires c.quiet.Some? ==> d < OpenStretch(c.quiet.value) && FlushesWithin(c, r, d)
    requires forall i :: 0 <= i < |After(c, r).l.tasks| ==> After(c, r).l.tasks[i].Done?
    ensures IsAt(After(c, r), a, p) && forall q :: IsAt(After(c, r), a, q) ==> q == p
    ensures p.InMessage? || (p.InDropped? && a.severity != Critical)
  {
    p := ExactlyOnePlace(c, r, a);
    SeveritiesKept(c, r);
    WindowKept(c, r);
    if c.quiet.Some? { QueueServedThroughout(c, r, d); } else { QueueUnused(c, r); }
  }

  /** Where an arrival goes: dropped exactly when it is below the floor or, unless critical,
      muted; queued exactly when quiet hours hold back what is neither dropped nor critical;
      else on its way to the correlation service or sent. An arrival that is not critical and
      not below the floor ends a mute that is over. */
  lemma ArrivalRouting(c: Config, s: State, a: Alert)
    requires Enabled(c, s, ArriveAct(a))
    ensures var t := Apply(c, s, ArriveAct(a));
      var below := (c.minSeverity == Warning && a.severity == Info)
                   || (c.minSeverity == Critical && a.severity != Critical);
      var muted := a.severity != Critical && s.h.muteUntil.Some? && s.l.now < s.h.muteUntil.value;
      var dropped := below || muted;
      var queued := !dropped && a.severity != Critical && c.quiet.Some? && IsActive(c.quiet.value, s.l.now);
      && t.h.dropped == s.h.dropped + (if dropped then [a] else [])
      && t.h.queue == s.h.queue + (if queued then [a] else [])
      && t.l.sent == s.l.sent + (if dropped || queued || c.correlate then [] else [Alone(a)])
      && (!dropped && !queued && c.correlate ==> t.l.tasks == s.l.tasks + [Recording(a)])
      && (queued ==> Unfinished(t.l, t.h.flushTask))
      && t.h.muteUntil == (if a.severity != Critical && !dropped then None else s.h.muteUntil)
      && t.b == s.b && t.l.now == s.l.now
  {
  }
}
