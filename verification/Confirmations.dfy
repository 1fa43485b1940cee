/** Two-step confirmations in chat: a request waits under its chat user until a reaction
    confirms it, it expires, or a newer request of its kind replaces it. Requests and reactions
    take effect in one stretch without suspension, so interleavings are sequences of them. */
module Confirmations {
  import opened Common

  type Time = int

  const SECOND := 1_000_000  // instants are microseconds
  const CONFIRMATION_TTL := 300 * SECOND

  datatype Key = Key(adapter: string, channel: string, user: string)

  datatype Kind = ConfigChange | ThresholdTuning | Action

  datatype Pending = Pending(id: nat, requestedAt: Time, expiresAt: Time)

  datatype Event =
    | Requested(kind: Kind, key: Key, id: nat, at: Time)
    | Executed(kind: Kind, key: Key, id: nat, at: Time)
    | Expired(kind: Kind, key: Key, id: nat, at: Time)

  /** The three pending maps, the next request identifier, and all that happened. */
  datatype Desk = Desk(configs: map<Key, Pending>, tunings: map<Key, Pending>, actions: map<Key, Pending>,
                       nextId: nat, log: seq<Event>)

  function Waiting(d: Desk, kind: Kind): map<Key, Pending> {
    match kind
    case ConfigChange => d.configs
    case ThresholdTuning => d.tunings
    case Action => d.actions
  }

  function WithWaiting(d: Desk, kind: Kind, m: map<Key, Pending>): Desk {
    match kind
    case ConfigChange => d.(configs := m)
    case ThresholdTuning => d.(tunings := m)
    case Action => d.(actions := m)
  }

  function Request(d: Desk, kind: Kind, key: Key, now: Time): Desk {
    var p := Pending(d.nextId, now, now + CONFIRMATION_TTL);
    WithWaiting(d, kind, Waiting(d, kind)[key := p]).
      (nextId := d.nextId + 1, log := d.log + [Requested(kind, key, d.nextId, now)])
  }

  /** What a confirming reaction takes up: the first kind, in this order, that waits. */
  function FirstWaiting(d: Desk, key: Key): Option<Kind> {
    if key in d.configs then Some(ConfigChange)
    else if key in d.tunings then Some(ThresholdTuning)
    else if key in d.actions then Some(Action)
    else None
  }

  function Outcome(kind: Kind, key: Key, p: Pending, now: Time): Event {
    if now > p.expiresAt then Expired(kind, key, p.id, now) else Executed(kind, key, p.id, now)
  }

  function React(d: Desk, key: Key, confirms: bool, now: Time): Desk {
    if !confirms || FirstWaiting(d, key).None? then d else
      var kind := FirstWaiting(d, key).value;
      var p := Waiting(d, kind)[key];
      WithWaiting(d, kind, Waiting(d, kind) - {key}).(log := d.log + [Outcome(kind, key, p, now)])
  }

  // ----- the dispatcher

  class ChatCommandDispatcher {
    var pendingConfigChanges: map<Key, Pending>
    var pendingThresholdTunings: map<Key, Pending>
    var pendingActions: map<Key, Pending>
    var nextId: nat
    ghost var log: seq<Event>

    constructor ()
      ensures View() == EMPTY_DESK
    {
      pendingConfigChanges, pendingThresholdTunings, pendingActions, nextId, log := map[], map[], map[], 0, [];
    }

    ghost function View(): Desk
      reads this
    {
      Desk(pendingConfigChanges, pendingThresholdTunings, pendingActions, nextId, log)
    }

    method NewRequest(ghost kind: Kind, key: Key, now: Time) returns (p: Pending)
      modifies this`nextId, this`log
      ensures p == Pending(old(nextId), now, now + CONFIRMATION_TTL) && nextId == old(nextId) + 1
      ensures log == old(log) + [Requested(kind, key, p.id, now)]
    {
      p := Pending(nextId, now, now + CONFIRMATION_TTL);
      log := log + [Requested(kind, key, nextId, now)];
      nextId := nextId + 1;
    }

    method ProposeConfigChange(key: Key, now: Time)
      modifies this
      ensures View() == Request(old(View()), ConfigChange, key, now)
    {
      var p := NewRequest(ConfigChange, key, now);
      pendingConfigChanges := pendingConfigChanges[key := p];
    }

    method ProposeThresholdTuning(key: Key, now: Time, recommendations: nat)
      modifies this
      ensures View() == if recommendations > 0 then Request(old(View()), ThresholdTuning, key, now) else old(View())
    {
      if recommendations == 0 { return; }
      var p := NewRequest(ThresholdTuning, key, now);
      pendingThresholdTunings := pendingThresholdTunings[key := p];
    }

    method RequestConfirmation(key: Key, now: Time)
      modifies this
      ensures View() == Request(old(View()), Action, key, now)
    {
      var p := NewRequest(Action, key, now);
      pendingActions := pendingActions[key := p];
    }

    /** A reaction, up to the point where what it confirms is handed over for execution. */
    method HandleReaction(key: Key, confirms: bool, now: Time) returns (executed: Option<nat>)
      modifies this
      ensures View() == React(old(View()), key, confirms, now)
      ensures executed.Some? <==> |log| == |old(log)| + 1 && log[|log| - 1].Executed?
      ensures executed.Some? ==> executed.value == log[|log| - 1].id
    {
      executed := None;
      if !confirms { return; }
      if key in pendingConfigChanges {
        var p := pendingConfigChanges[key];
        pendingConfigChanges := pendingConfigChanges - {key};
        log := log + [Outcome(ConfigChange, key, p, now)];
        if now > p.expiresAt { return; }
        return Some(p.id);
      }
      if key in pendingThresholdTunings {
        var p := pendingThresholdTunings[key];
        pendingThresholdTunings := pendingThresholdTunings - {key};
        log := log + [Outcome(ThresholdTuning, key, p, now)];
        if now > p.expiresAt { return; }
        return Some(p.id);
      }
      if key !in pendingActions { return; }
      var p := pendingActions[key];
      pendingActions := pendingActions - {key};
      log := log + [Outcome(Action, key, p, now)];
      if now > p.expiresAt { return; }
      return Some(p.id);
    }
  }

  // ----- runs

  const EMPTY_DESK := Desk(map[], map[], map[], 0, [])

  datatype Input =
    | Asks(kind: Kind, key: Key, at: Time)
    | Reacts(key: Key, confirms: bool, at: Time)

  function Step(d: Desk, i: Input): Desk {
    match i
    case Asks(kind, key, at) => Request(d, kind, key, at)
    case Reacts(key, confirms, at) => React(d, key, confirms, at)
  }

  function After(inputs: seq<Input>, n: nat): Desk
    requires n <= |inputs|
  {
    if n == 0 then EMPTY_DESK else Step(After(inputs, n - 1), inputs[n - 1])
  }

  ghost predicate InOrder(inputs: seq<Input>) {
    forall i, j :: 0 <= i < j < |inputs| ==> inputs[i].at <= inputs[j].at
  }

  predicate About(e: Event, kind: Kind, key: Key) { e.kind == kind && e.key == key }

  /** Told from the first `n` events alone: the request of a kind and user still outstanding,
      neither replaced nor taken up. */
  function Outstanding(log: seq<Event>, n: nat, kind: Kind, key: Key): Option<nat>
    requires n <= |log|
  {
    if n == 0 then None
    else if About(log[n - 1], kind, key) then (if log[n - 1].Requested? then Some(n - 1) else None)
    else Outstanding(log, n - 1, kind, key)
  }

  lemma {:induction false} OutstandingPrefix(log: seq<Event>, more: seq<Event>, n: nat, kind: Kind, key: Key)
    requires n <= |log|
    ensures Outstanding(log + more, n, kind, key) == Outstanding(log, n, kind, key)
  {
    if n > 0 { OutstandingPrefix(log, more, n - 1, kind, key); }
  }

  lemma {:induction false} OutstandingIsLast(log: seq<Event>, n: nat, kind: Kind, key: Key)
    requires n <= |log| && Outstanding(log, n, kind, key).Some?
    ensures var r := Outstanding(log, n, kind, key).value;
      r < n && log[r].Requested? && About(log[r], kind, key) && forall j :: r < j < n ==> !About(log[j], kind, key)
  {
    if !About(log[n - 1], kind, key) { OutstandingIsLast(log, n - 1, kind, key); }
  }

  /** The pending maps hold exactly the outstanding requests. */
  ghost predicate Holds(d: Desk, kind: Kind, key: Key) {
    match Outstanding(d.log, |d.log|, kind, key)
    case None => key !in Waiting(d, kind)
    case Some(r) =>
      r < |d.log| && key in Waiting(d, kind)
      && Waiting(d, kind)[key] == Pending(d.log[r].id, d.log[r].at, d.log[r].at + CONFIRMATION_TTL)
  }

  lemma LogGrows(log: seq<Event>, e: Event, kind: Kind, key: Key)
    ensures Outstanding(log + [e], |log| + 1, kind, key) ==
      if About(e, kind, key) then (if e.Requested? then Some(|log|) else None) else Outstanding(log, |log|, kind, key)
  {
    OutstandingPrefix(log, [e], |log|, kind, key);
  }

  lemma HoldsAfterRequest(d: Desk, asked: Kind, who: Key, now: Time, kind: Kind, key: Key)
    requires Holds(d, kind, key)
    ensures Holds(Request(d, asked, who, now), kind, key)
  {
    LogGrows(d.log, Requested(asked, who, d.nextId, now), kind, key);
  }

  lemma HoldsAfterReaction(d: Desk, who: Key, now: Time, kind: Kind, key: Key)
    requires Holds(d, kind, key)
    ensures Holds(React(d, who, true, now), kind, key)
  {
    hide Outstanding;
    var first := FirstWaiting(d, who);
    if first.Some? { LogGrows(d.log, Outcome(first.value, who, Waiting(d, first.value)[who], now), kind, key); }
  }

  lemma HoldsStep(d: Desk, i: Input, kind: Kind, key: Key)
    requires Holds(d, kind, key)
    ensures Holds(Step(d, i), kind, key)
  {
    hide Holds, Request, FirstWaiting;
    match i
    case Asks(asked, who, at) => HoldsAfterRequest(d, asked, who, at, kind, key);
    case Reacts(who, confirms, at) => if confirms { HoldsAfterReaction(d, who, at, kind, key); }
  }

  lemma {:induction false} PendingIsOutstanding(inputs: seq<Input>, n: nat, kind: Kind, key: Key)
    requires n <= |inputs|
    ensures Holds(After(inputs, n), kind, key)
  {
    if n > 0 {
      PendingIsOutstanding(inputs, n - 1, kind, key);
      HoldsStep(After(inputs, n - 1), inputs[n - 1], kind, key);
    }
  }

  /** An execution answers the outstanding request of its kind and user, in time. */
  ghost predicate Answers(log: seq<Event>, e: nat)
    requires e < |log|
  {
    log[e].Executed? ==>
      var r := Outstanding(log, e, log[e].kind, log[e].key);
      r.Some? && r.value < e && log[r.value].id == log[e].id
      && log[r.value].at <= log[e].at <= log[r.value].at + CONFIRMATION_TTL
  }

  ghost predicate Sound(d: Desk, now: Time) {
    && (forall j :: 0 <= j < |d.log| ==> d.log[j].at <= now)
    && (forall j :: 0 <= j < |d.log| && d.log[j].Requested? ==> d.log[j].id < d.nextId)
    && (forall i, j :: 0 <= i < j < |d.log| && d.log[i].Requested? && d.log[j].Requested? ==>
          d.log[i].id != d.log[j].id)
    && (forall e :: 0 <= e < |d.log| ==> Answers(d.log, e))
  }

  lemma AnswersStill(log: seq<Event>, more: seq<Event>, e: nat)
    requires e < |log| && Answers(log, e)
    ensures Answers(log + more, e)
  {
    OutstandingPrefix(log, more, e, log[e].kind, log[e].key);
  }

  /** One more event keeps the log sound if it is a fresh request or a sound answer. */
  lemma SoundMore(d: Desk, after: Desk, event: Event, last: Time, now: Time)
    requires Sound(d, last) && last <= now
    requires after.log == d.log + [event] && event.at == now && d.nextId <= after.nextId
    requires event.Requested? ==> event.id == d.nextId < after.nextId
    requires Answers(after.log, |d.log|)
    ensures Sound(after, now)
  {
    hide Answers;
    forall e | 0 <= e < |after.log| ensures Answers(after.log, e) {
      if e < |d.log| { AnswersStill(d.log, [event], e); }
    }
  }

  lemma SoundRequest(d: Desk, kind: Kind, key: Key, last: Time, now: Time)
    requires Sound(d, last) && last <= now
    ensures Sound(Request(d, kind, key, now), now)
  {
    hide Sound;
    SoundMore(d, Request(d, kind, key, now), Requested(kind, key, d.nextId, now), last, now);
  }

  lemma SoundReaction(d: Desk, key: Key, last: Time, now: Time)
    requires Sound(d, last) && last <= now
    requires forall kind :: Holds(d, kind, key)
    ensures Sound(React(d, key, true, now), now)
  {
    var first := FirstWaiting(d, key);
    if first.Some? {
      var event := Outcome(first.value, key, Waiting(d, first.value)[key], now);
      assert Holds(d, first.value, key);
      OutstandingPrefix(d.log, [event], |d.log|, first.value, key);
      hide Sound;
      SoundMore(d, React(d, key, true, now), event, last, now);
    }
  }

  lemma SoundStep(d: Desk, i: Input, last: Time)
    requires Sound(d, last) && last <= i.at
    requires forall kind :: Holds(d, kind, i.key)
    ensures Sound(Step(d, i), i.at)
  {
    hide Request, FirstWaiting, Holds, Answers;
    match i
    case Asks(kind, key, at) => SoundRequest(d, kind, key, last, at);
    case Reacts(key, confirms, at) => if confirms { SoundReaction(d, key, last, at); }
  }

  lemma {:induction false} AlwaysSound(inputs: seq<Input>, n: nat)
    requires n <= |inputs| && InOrder(inputs)
    ensures n > 0 ==> Sound(After(inputs, n), inputs[n - 1].at)
    ensures n == 0 ==> After(inputs, n).log == []
  {
    if n > 0 {
      AlwaysSound(inputs, n - 1);
      var d, i := After(inputs, n - 1), inputs[n - 1];
      forall kind ensures Holds(d, kind, i.key) { PendingIsOutstanding(inputs, n - 1, kind, i.key); }
      SoundStep(d, i, if n > 1 then inputs[n - 2].at else i.at);
    }
  }

  /** In every run, an execution answers an earlier request of the same kind, adapter, channel
      and user, made at most 300 seconds before and replaced by none since; and no request is
      answered twice, nor after it expired. */
  lemma ExecutedMatches(inputs: seq<Input>, e: nat) returns (r: nat)
    requires InOrder(inputs) && e < |After(inputs, |inputs|).log| && After(inputs, |inputs|).log[e].Executed?
    ensures var log := After(inputs, |inputs|).log;
      && r < e && log[r] == Requested(log[e].kind, log[e].key, log[e].id, log[r].at)
      && log[r].at <= log[e].at <= log[r].at + 300 * SECOND
      && (forall j :: r < j < e ==> !About(log[j], log[e].kind, log[e].key))
      && (forall f :: 0 <= f < |log| && log[f].Executed? && log[f].id == log[e].id ==> f == e)
  {
    AlwaysSound(inputs, |inputs|);
    var log := After(inputs, |inputs|).log;
    assert Answers(log, e);
    r := Outstanding(log, e, log[e].kind, log[e].key).value;
    OutstandingIsLast(log, e, log[e].kind, log[e].key);
    forall f | 0 <= f < |log| && log[f].Executed? && log[f].id == log[e].id ensures f == e {
      assert Answers(log, f);
      OutstandingIsLast(log, f, log[f].kind, log[f].key);
      var q := Outstanding(log, f, log[f].kind, log[f].key).value;
      assert q == r;
    }
  }

  /** A reaction consumes at most one request: the outstanding one of the first kind that has
      one, in the order configuration change, threshold tuning, action. It is executed exactly
      if its 300 seconds are not over; every other request keeps waiting. */
  lemma ReactionConsumesOne(inputs: seq<Input>, key: Key, now: Time)
    ensures var d := After(inputs, |inputs|);
      var after := React(d, key, true, now);
      var waits := (kind: Kind) => Outstanding(d.log, |d.log|, kind, key);
      var first := if waits(ConfigChange).Some? then Some(ConfigChange)
                   else if waits(ThresholdTuning).Some? then Some(ThresholdTuning)
                   else if waits(Action).Some? then Some(Action) else None;
      if first.None? then after == d
      else
        var r := waits(first.value).value;
        && r < |d.log|
        && var inTime := now <= d.log[r].at + 300 * SECOND;
        && after.log == d.log + [if inTime then Executed(first.value, key, d.log[r].id, now)
                                 else Expired(first.value, key, d.log[r].id, now)]
        && forall kind, other :: (kind, other) != (first.value, key) ==>
             Outstanding(after.log, |after.log|, kind, other) == Outstanding(d.log, |d.log|, kind, other)
  {
    var d := After(inputs, |inputs|);
    forall kind ensures Holds(d, kind, key) { PendingIsOutstanding(inputs, |inputs|, kind, key); }
    assert Holds(d, ConfigChange, key) && Holds(d, ThresholdTuning, key) && Holds(d, Action, key);
    var after := React(d, key, true, now);
    if after.log != d.log {
      forall kind, other { LogGrows(d.log, after.log[|d.log|], kind, other); }
    }
  }

  // ----- what causes what

  /** The input that would be the cause of an event. */
  function Cause(e: Event): Input {
    match e
    case Requested(kind, key, _, at) => Asks(kind, key, at)
    case Executed(_, key, _, at) => Reacts(key, true, at)
    case Expired(_, key, _, at) => Reacts(key, true, at)
  }

  /** Each event of a log has an input of its own as its cause, in the same order, and each
      request that was made is in the log. */
  ghost predicate Caused(log: seq<Event>, causes: seq<nat>, inputs: seq<Input>, n: nat)
    requires n <= |inputs|
  {
    && |causes| == |log|
    && (forall j :: 0 <= j < |log| ==> causes[j] < n && inputs[causes[j]] == Cause(log[j]))
    && (forall i, j :: 0 <= i < j < |log| ==> causes[i] < causes[j])
    && (forall k :: 0 <= k < n && inputs[k].Asks? ==> k in causes)
  }

  lemma StepIsCaused(d: Desk, i: Input)
    ensures var log := Step(d, i).log;
      if i.Asks? then |log| == |d.log| + 1 && log == d.log + [log[|d.log|]] && Cause(log[|d.log|]) == i
      else log == d.log || (|log| == |d.log| + 1 && log == d.log + [log[|d.log|]] && Cause(log[|d.log|]) == i)
  {
  }

  /** In every run each event is caused by an input of its own: a request by the proposal, an
      execution or expiry by a confirming reaction of the same user at the same time. */
  lemma {:induction false} EventsAreCaused(inputs: seq<Input>, n: nat) returns (causes: seq<nat>)
    requires n <= |inputs|
    ensures Caused(After(inputs, n).log, causes, inputs, n)
  {
    causes := [];
    if n > 0 {
      causes := EventsAreCaused(inputs, n - 1);
      hide Step, Cause;
      StepIsCaused(After(inputs, n - 1), inputs[n - 1]);
      if After(inputs, n).log != After(inputs, n - 1).log {
        ghost var before := causes;
        causes := causes + [n - 1];
        assert forall k :: k in before ==> k in causes;
        assert causes[|before|] == n - 1;
      }
    }
  }

  /** The inputs without the reactions that do not confirm. */
  function Confirming(inputs: seq<Input>, n: nat): seq<Input>
    requires n <= |inputs|
  {
    if n == 0 then [] else
      Confirming(inputs, n - 1)
      + (if inputs[n - 1].Reacts? && !inputs[n - 1].confirms then [] else [inputs[n - 1]])
  }

  lemma {:induction false} AfterPrefix(inputs: seq<Input>, more: seq<Input>, n: nat)
    requires n <= |inputs|
    ensures After(inputs + more, n) == After(inputs, n)
  {
    hide Step;
    if n > 0 { AfterPrefix(inputs, more, n - 1); }
  }

  lemma OneMoreInput(inputs: seq<Input>, i: Input)
    ensures After(inputs + [i], |inputs| + 1) == Step(After(inputs, |inputs|), i)
  {
    hide Step;
    AfterPrefix(inputs, [i], |inputs|);
  }

  lemma Unconfirmed(d: Desk, key: Key, at: Time)
    ensures Step(d, Reacts(key, false, at)) == d
  {
  }

  /** Reactions that do not confirm change nothing: a run without them ends with the same desk. */
  lemma {:induction false} OthersChangeNothing(inputs: seq<Input>, n: nat)
    requires n <= |inputs|
    ensures After(Confirming(inputs, n), |Confirming(inputs, n)|) == After(inputs, n)
  {
    hide Step;
    if n > 0 {
      var i := inputs[n - 1];
      OthersChangeNothing(inputs, n - 1);
      if i.Reacts? && !i.confirms {
        Unconfirmed(After(inputs, n - 1), i.key, i.at);
        assert Confirming(inputs, n - 1) + [] == Confirming(inputs, n - 1);
      } else {
        OneMoreInput(Confirming(inputs, n - 1), i);
      }
    }
  }
}
