/** When and how the alert pipeline sends: the digest no earlier than quiet hours end and no
    later than its task was slow to begin, correlated messages for related verdicts alone, and
    batches in the order they came. */
module AlertTiming {
  import opened Common
  import opened QuietHours
  import opened AlertPipeline

  // ----- the digest of the quiet-hours queue

  ghost predicate Extends(r: Run, q: Run) { r == q || (r.Then? && Extends(r.before, q)) }

  /** When a flush task of the run began its delay. */
  ghost function StartedAt(c: Config, r: Run, i: nat): Option<Time>
    requires Legal(c, r)
  {
    if r.Boot? then None
    else if r.act == StartQuietAct(i) then Some(After(c, r.before).l.now)
    else StartedAt(c, r.before, i)
  }

  /** An alert is queued while no flush task waits: it makes one. */
  ghost predicate Schedules(c: Config, s: State, a: Alert) {
    && a !in s.h.arrived && a.severity != Critical && (c.minSeverity == Info || c.minSeverity == a.severity)
    && (s.h.muteUntil.Some? ==> s.h.muteUntil.value <= s.l.now)
    && c.quiet.Some? && IsActive(c.quiet.value, s.l.now)
    && !Unfinished(s.l, s.h.flushTask)
  }

  /** A task made at `made` for a digest due at `end` sleeps as long as from `made` to `end`,
      counted from when it begins, and does nothing before. */
  ghost predicate OnTime(t: Task, started: Option<Time>, now: Time, made: Time, end: Time) {
    && made <= now
    && match t {
         case QuietCreated(_, delay) => started == None && delay == end - made
         case QuietSleeping(_, deadline) =>
           started.Some? && made <= started.value && deadline == end + (started.value - made)
         case QuietSending(_) => started.Some? && made <= started.value && end + (started.value - made) <= now
         case Done => started.Some? && made <= started.value && end + (started.value - made) <= now
         case _ => false
       }
  }

  lemma OnTimeStep(c: Config, s: State, act: Action, i: nat, started: Option<Time>, made: Time, end: Time)
    requires Enabled(c, s, act) && i < |s.l.tasks| && OnTime(s.l.tasks[i], started, s.l.now, made, end)
    ensures var t := Apply(c, s, act);
      i < |t.l.tasks|
      && OnTime(t.l.tasks[i], if act == StartQuietAct(i) then Some(s.l.now) else started, t.l.now, made, end)
  {
  }

  lemma TasksStay(c: Config, s: State, act: Action)
    requires Enabled(c, s, act)
    ensures |s.l.tasks| <= |Apply(c, s, act).l.tasks|
  {
  }

  lemma {:induction false} NotStarted(c: Config, r: Run, i: nat)
    requires Legal(c, r) && i >= |After(c, r).l.tasks|
    ensures StartedAt(c, r, i) == None
  {
    if r.Then? {
      TasksStay(c, After(c, r.before), r.act);
      NotStarted(c, r.before, i);
    }
  }

  lemma Scheduled(c: Config, s: State, a: Alert)
    requires Schedules(c, s, a)
    ensures Enabled(c, s, ArriveAct(a))
    ensures var t := Apply(c, s, ArriveAct(a));
      |t.l.tasks| == |s.l.tasks| + 1 && t.h.flushTask == Some(|s.l.tasks|)
      && OnTime(t.l.tasks[|s.l.tasks|], None, t.l.now, s.l.now, QuietHoursEnd(c.quiet.value, s.l.now))
  {
    hide IsActive, QuietHoursEnd;
    EndIsAheadIff(c.quiet.value, s.l.now);
  }

  /** In every run that goes on from where an alert made a flush task, the task's deadline is
      the end of quiet hours as seen when the alert came, plus what the task was slow to begin;
      and nothing is sent for it before. */
  lemma {:induction false} DigestOnTime(c: Config, q: Run, a: Alert, r: Run)
    requires Legal(c, r) && Extends(r, Then(q, ArriveAct(a))) && Legal(c, q) && Schedules(c, After(c, q), a)
    ensures var s, i := After(c, q), |After(c, q).l.tasks|;
      i < |After(c, r).l.tasks|
      && OnTime(After(c, r).l.tasks[i], StartedAt(c, r, i), After(c, r).l.now, s.l.now,
                QuietHoursEnd(c.quiet.value, s.l.now))
  {
    assert c.quiet.Some?;
    hide OnTime, Schedules, Enabled, Apply, QuietHoursEnd;
    var s, i := After(c, q), |After(c, q).l.tasks|;
    if r == Then(q, ArriveAct(a)) {
      NotStarted(c, q, i);
      Scheduled(c, s, a);
    } else {
      DigestOnTime(c, q, a, r.before);
      OnTimeStep(c, After(c, r.before), r.act, i, StartedAt(c, r.before, i), s.l.now,
                 QuietHoursEnd(c.quiet.value, s.l.now));
    }
  }

  lemma {:induction false} LegalBefore(c: Config, r: Run, q: Run)
    requires Legal(c, r) && Extends(r, q)
    ensures Legal(c, q)
  {
    if r != q { LegalBefore(c, r.before, q); }
  }

  /** A flush task that begins at once sleeps until exactly the end of the quiet stretch in
      which its alert came: all of it is quiet and its end is not. With equal ends it sleeps
      until the next later occurrence of that time of day. A task that begins late is as late. */
  lemma DigestAtQuietEnd(c: Config, q: Run, a: Alert, r: Run) returns (late: nat)
    requires Legal(c, r) && Extends(r, Then(q, ArriveAct(a))) && Legal(c, q) && Schedules(c, After(c, q), a)
    requires var i := |After(c, q).l.tasks|; i < |After(c, r).l.tasks| && After(c, r).l.tasks[i].QuietSleeping?
    ensures var w, came := c.quiet.value, After(c, q).l.now;
      var due := After(c, r).l.tasks[|After(c, q).l.tasks|].deadline - late;
      && StartedAt(c, r, |After(c, q).l.tasks|) == Some(came + late)
      && came < due <= came + DAY
      && (w.startMinute != w.endMinute ==> (forall t :: came <= t < due ==> IsActive(w, t)) && !IsActive(w, due))
      && (w.startMinute == w.endMinute ==>
            due % DAY == w.endMinute * MINUTE && forall t :: came < t < due ==> t % DAY != w.endMinute * MINUTE)
      && (forall x :: Enabled(c, At(After(c, r), x), WakeQuietAct(|After(c, q).l.tasks|)) <==> x >= due + late)
  {
    hide IsActive, QuietHoursEnd, Apply;
    var w, came := c.quiet.value, After(c, q).l.now;
    DigestOnTime(c, q, a, r);
    late := StartedAt(c, r, |After(c, q).l.tasks|).value - came;
    if w.startMinute == w.endMinute { NextOccurrence(w, came); } else { EndIsExact(w, came); }
  }

  // ----- the window of the correlation service

  /** A window made for an alert that came at `made` opens, sleeps, and is over: not before the
      window length has passed. */
  ghost predicate WindowOnTime(c: Config, t: Task, now: Time, made: Time) {
    && made <= now
    && match t {
         case WindowCreated(created) => created == made
         case WindowSleeping(created, started) => created == made <= started
         case Done => made + c.windowLength <= now
         case _ => false
       }
  }

  lemma WindowOnTimeStep(c: Config, s: State, act: Action, i: nat, made: Time)
    requires Enabled(c, s, act) && i < |s.l.tasks| && WindowOnTime(c, s.l.tasks[i], s.l.now, made)
    ensures var t := Apply(c, s, act); i < |t.l.tasks| && WindowOnTime(c, t.l.tasks[i], t.l.now, made)
  {
  }

  /** In every run that goes on from where an alert opened a window, that window is over no
      earlier than a window length after the alert came. */
  lemma {:induction false} WindowNotEarly(c: Config, q: Run, j: nat, r: Run)
    requires Legal(c, r) && Extends(r, Then(q, SubmitAct(j))) && Legal(c, q) && Enabled(c, After(c, q), SubmitAct(j))
    requires !Unfinished(Become(After(c, q).l, j, Done), After(c, q).b.windowTask)
    ensures var s, i := After(c, q), |After(c, q).l.tasks|;
      i < |After(c, r).l.tasks| && WindowOnTime(c, After(c, r).l.tasks[i], After(c, r).l.now, s.l.now)
  {
    if r != Then(q, SubmitAct(j)) {
      hide Enabled, Apply, WindowOnTime;
      WindowNotEarly(c, q, j, r.before);
      WindowOnTimeStep(c, After(c, r.before), r.act, |After(c, q).l.tasks|, After(c, q).l.now);
    }
  }

  // ----- the mute

  /** No mute command came since. */
  ghost predicate NoMuteSince(r: Run, q: Run) {
    r == q || (r.Then? && !r.act.MuteAct? && NoMuteSince(r.before, q))
  }

  lemma MuteStep(c: Config, s: State, act: Action, until: Time)
    requires Enabled(c, s, act) && !act.MuteAct?
    ensures s.l.now <= Apply(c, s, act).l.now
    ensures s.h.muteUntil == Some(until) && s.l.now < until ==> Apply(c, s, act).h.muteUntil == Some(until)
  {
  }

  /** A mute lasts until its end, whatever happens, if no other mute command comes. */
  lemma {:induction false} MuteLasts(c: Config, q: Run, until: Time, r: Run)
    requires Legal(c, q) && Legal(c, r) && NoMuteSince(r, Then(q, MuteAct(Some(until)))) && After(c, r).l.now < until
    ensures After(c, r).h.muteUntil == Some(until)
  {
    if r != Then(q, MuteAct(Some(until))) {
      hide Apply;
      MuteStep(c, After(c, r.before), r.act, until);
      MuteLasts(c, q, until, r.before);
    }
  }

  /** Until then every alert that is not critical is dropped; without a mute in force an alert
      that is not below the floor is not. */
  lemma MutedAlerts(c: Config, q: Run, until: Option<Time>, r: Run, a: Alert)
    requires Legal(c, q) && Legal(c, r) && NoMuteSince(r, Then(q, MuteAct(until)))
    requires Enabled(c, After(c, r), ArriveAct(a)) && a.severity != Critical
    ensures until.Some? && After(c, r).l.now < until.value ==>
      After(c, Then(r, ArriveAct(a))).h.dropped == After(c, r).h.dropped + [a]
    ensures until == None && (c.minSeverity == Info || c.minSeverity == a.severity) ==>
      After(c, Then(r, ArriveAct(a))).h.dropped == After(c, r).h.dropped
  {
    if until.Some? && After(c, r).l.now < until.value {
      MuteLasts(c, q, until.value, r);
    } else if until == None {
      UnmutedStays(c, q, r);
    }
  }

  lemma {:induction false} UnmutedStays(c: Config, q: Run, r: Run)
    requires Legal(c, q) && Legal(c, r) && NoMuteSince(r, Then(q, MuteAct(None)))
    ensures After(c, r).h.muteUntil == None
  {
    if r != Then(q, MuteAct(None)) { UnmutedStays(c, q, r.before); }
  }

  // ----- the verdicts of the language model

  function Correlations(sent: seq<Message>): nat {
    if sent == [] then 0 else
      var n := |sent| - 1;
      Correlations(sent[..n]) + (if sent[n].Correlated? then 1 else 0)
  }

  ghost function RelatedReplies(r: Run): nat {
    if r.Boot? then 0 else RelatedReplies(r.before) + (if r.act.ReplyAct? && r.act.related then 1 else 0)
  }

  lemma OneMoreSent(sent: seq<Message>, m: Message)
    ensures Correlations(sent + [m]) == Correlations(sent) + (if m.Correlated? then 1 else 0)
  {
    assert (sent + [m])[..|sent|] == sent;
  }

  lemma SentStep(c: Config, s: State, act: Action)
    requires Enabled(c, s, act)
    ensures var t := Apply(c, s, act);
      t.l.sent == s.l.sent
      || (|t.l.sent| == |s.l.sent| + 1 && t.l.sent == s.l.sent + [t.l.sent[|s.l.sent|]]
          && (t.l.sent[|s.l.sent|].Correlated? <==> act.ReplyAct? && act.related))
    ensures act.ReplyAct? && act.related ==> Apply(c, s, act).l.sent != s.l.sent
  {
  }

  /** In every run there are as many correlated messages as verdicts that the alerts of a batch
      are related: each such verdict sends one, and nothing else does. */
  lemma {:induction false} CorrelatedIfRelated(c: Config, r: Run)
    requires Legal(c, r)
    ensures Correlations(After(c, r).l.sent) == RelatedReplies(r)
  {
    hide Enabled, Apply;
    if r.Then? {
      CorrelatedIfRelated(c, r.before);
      var s := After(c, r.before);
      SentStep(c, s, r.act);
      var t := After(c, r);
      if t.l.sent != s.l.sent { OneMoreSent(s.l.sent, t.l.sent[|s.l.sent|]); }
    }
  }

  function Asking(tasks: seq<Task>): nat {
    if tasks == [] then 0 else
      var n := |tasks| - 1;
      Asking(tasks[..n]) + AsksOne(tasks[n])
  }

  function AsksOne(t: Task): nat { if t.FlushAsking? then 1 else 0 }

  /** The steps of a run that took over a batch of two alerts or more with the model enabled. */
  ghost function Questions(c: Config, r: Run): nat
    requires Legal(c, r)
  {
    if r.Boot? then 0 else
      Questions(c, r.before)
      + (if r.act.StartFlushAct? && r.act.llm && |After(c, r.before).b.pending| >= 2 then 1 else 0)
  }

  ghost function Replies(r: Run): nat {
    if r.Boot? then 0 else Replies(r.before) + (if r.act.ReplyAct? then 1 else 0)
  }

  lemma AskingMore(tasks: seq<Task>, t: Task)
    ensures Asking(tasks + [t]) == Asking(tasks) + AsksOne(t)
  {
    assert (tasks + [t])[..|tasks|] == tasks;
  }

  lemma {:induction false} AskingBecome(tasks: seq<Task>, i: nat, t: Task)
    requires i < |tasks|
    ensures Asking(tasks[i := t]) + AsksOne(tasks[i]) == Asking(tasks) + AsksOne(t)
  {
    var n := |tasks| - 1;
    if i < n {
      assert tasks[i := t][..n] == tasks[..n][i := t];
      AskingBecome(tasks[..n], i, t);
    } else {
      assert tasks[i := t][..n] == tasks[..n];
    }
  }

  /** A step changes at most the task it is for and appends at most one. */
  ghost predicate TaskStep(s: State, t: State, i: nat, was: nat, now: nat)
    requires i < |s.l.tasks|
  {
    && |s.l.tasks| <= |t.l.tasks| <= |s.l.tasks| + 1
    && (forall k :: 0 <= k < |s.l.tasks| && k != i ==> t.l.tasks[k] == s.l.tasks[k])
    && AsksOne(s.l.tasks[i]) == was && AsksOne(t.l.tasks[i]) == now
    && (|t.l.tasks| > |s.l.tasks| ==> !t.l.tasks[|s.l.tasks|].FlushAsking?)
  }

  lemma AskingStep(s: State, t: State, i: nat, was: nat, now: nat)
    requires i < |s.l.tasks| && TaskStep(s, t, i, was, now)
    ensures Asking(t.l.tasks) + was == Asking(s.l.tasks) + now
  {
    hide Asking;
    var same := s.l.tasks[i := t.l.tasks[i]];
    AskingBecome(s.l.tasks, i, t.l.tasks[i]);
    if |t.l.tasks| == |s.l.tasks| {
      assert t.l.tasks == same;
    } else {
      assert t.l.tasks == same + [t.l.tasks[|s.l.tasks|]];
      AskingMore(same, t.l.tasks[|s.l.tasks|]);
    }
  }

  predicate HasTask(act: Action) { !act.ArriveAct? && !act.MuteAct? && !act.Advance? }

  lemma TaskSteps(c: Config, s: State, act: Action)
    requires Enabled(c, s, act) && HasTask(act)
    ensures act.task < |s.l.tasks|
    ensures TaskStep(s, Apply(c, s, act), act.task, if act.ReplyAct? then 1 else 0,
                     if act.StartFlushAct? && act.llm && |s.b.pending| >= 2 then 1 else 0)
  {
  }

  lemma ArrivalAsksNothing(c: Config, s: State, act: Action)
    requires Enabled(c, s, act) && !HasTask(act)
    ensures Asking(Apply(c, s, act).l.tasks) == Asking(s.l.tasks)
  {
    hide Asking;
    var t := Apply(c, s, act);
    assert t.l.tasks == s.l.tasks || t.l.tasks == s.l.tasks + [t.l.tasks[|s.l.tasks|]];
    if t.l.tasks != s.l.tasks { AskingMore(s.l.tasks, t.l.tasks[|s.l.tasks|]); }
  }

  /** In every run the model is asked about exactly the batches of two alerts or more that were
      taken over while it was enabled: each question is answered or still waits. */
  lemma {:induction false} AskedAboutBatches(c: Config, r: Run)
    requires Legal(c, r)
    ensures Questions(c, r) == Replies(r) + Asking(After(c, r).l.tasks)
  {
    hide Asking, Enabled, Apply;
    if r.Then? {
      AskedAboutBatches(c, r.before);
      var s := After(c, r.before);
      if HasTask(r.act) {
        TaskSteps(c, s, r.act);
        AskingStep(s, After(c, r), r.act.task, if r.act.ReplyAct? then 1 else 0,
                   if r.act.StartFlushAct? && r.act.llm && |s.b.pending| >= 2 then 1 else 0);
      } else {
        ArrivalAsksNothing(c, s, r.act);
      }
    } else {
      NoneAsks();
    }
  }

  lemma NoneAsks()
    ensures Asking([]) == 0
  {
  }

  // ----- the order of a batch

  function EachAlone(batch: seq<Alert>): seq<Message> { seq(|batch|, k requires 0 <= k < |batch| => Alone(batch[k])) }

  /** The task's steps until its batch is sent, with nothing in between. */
  function SentOff(l: LoopState, i: nat, batch: seq<Alert>): (r: LoopState)
    requires i < |l.tasks|
    ensures |r.tasks| == |l.tasks|
    decreases batch
  {
    if batch == [] then SendFirst(l, i, batch) else SentOff(SendFirst(l, i, batch), i, batch[1..])
  }

  /** A batch sent one by one is sent in the order it came, and its task is done. */
  lemma {:induction false} SentInOrder(l: LoopState, i: nat, batch: seq<Alert>)
    requires i < |l.tasks|
    ensures SentOff(l, i, batch).sent == l.sent + EachAlone(batch) && SentOff(l, i, batch).tasks[i] == Done
    ensures batch != [] ==> SendFirst(l, i, batch).tasks[i] == FlushSending(batch[1..])
    decreases batch
  {
    if batch != [] {
      SentInOrder(SendFirst(l, i, batch), i, batch[1..]);
      assert EachAlone(batch) == [Alone(batch[0])] + EachAlone(batch[1..]);
      assert l.sent + [Alone(batch[0])] + EachAlone(batch[1..]) == l.sent + EachAlone(batch);
    } else {
      assert l.sent + EachAlone(batch) == l.sent;
    }
  }
}
