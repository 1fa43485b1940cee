/** The service monitor: restart attempts per service, their limit, and the events published.
    One check of a service sees whether it is active and, if a restart is tried, whether it
    worked. */
module ServiceMonitor {
  import opened Common
  import opened Text

  datatype Event =
    | FailureDetected(attempt: nat)
    | RestartResult(attempt: nat, succeeded: bool)
    | RestartExhausted

  datatype Check = Check(active: bool, restartWorks: bool)

  /** What the monitor remembers of a service. */
  datatype Memory = Memory(attempts: nat, exhausted: bool)

  const FORGOTTEN := Memory(0, false)

  function Remember(m: Memory, c: Check, limit: nat): Memory {
    if c.active then FORGOTTEN
    else if m.exhausted then m
    else if c.restartWorks then FORGOTTEN
    else Memory(m.attempts + 1, m.attempts + 1 >= limit)
  }

  function Publish(m: Memory, c: Check, limit: nat): seq<Event> {
    if c.active || m.exhausted then []
    else
      var attempt := m.attempts + 1;
      [FailureDetected(attempt), RestartResult(attempt, c.restartWorks)]
      + (if !c.restartWorks && attempt >= limit then [RestartExhausted] else [])
  }

  // ----- the trace of one service

  function After(checks: seq<Check>, limit: nat, n: nat): Memory
    requires n <= |checks|
  {
    if n == 0 then FORGOTTEN else Remember(After(checks, limit, n - 1), checks[n - 1], limit)
  }

  function Trace(checks: seq<Check>, limit: nat, n: nat): seq<Event>
    requires n <= |checks|
  {
    if n == 0 then [] else
      Trace(checks, limit, n - 1) + Publish(After(checks, limit, n - 1), checks[n - 1], limit)
  }

  /** An outage: its failed restarts, and how it ended. */
  datatype End = ActiveAgain | RestartWorked

  datatype Outage = Outage(failed: nat, end: End)

  /** The events of `k` failed restarts: numbered from 1, and exhaustion told when and only
      when the limit is reached. */
  function Failing(k: nat, limit: nat): seq<Event> {
    if k == 0 then [] else
      Failing(k - 1, limit) + [FailureDetected(k), RestartResult(k, false)]
      + (if k == limit then [RestartExhausted] else [])
  }

  function Told(o: Outage, limit: nat): seq<Event> {
    Failing(o.failed, limit)
    + (if o.end.RestartWorked? then [FailureDetected(o.failed + 1), RestartResult(o.failed + 1, true)] else [])
  }

  function AllTold(outages: seq<Outage>, limit: nat, n: nat): seq<Event>
    requires n <= |outages|
  {
    if n == 0 then [] else AllTold(outages, limit, n - 1) + Told(outages[n - 1], limit)
  }

  ghost predicate WithinLimit(outages: seq<Outage>, limit: nat) {
    forall i :: 0 <= i < |outages| ==>
      outages[i].failed <= limit && (outages[i].end.RestartWorked? ==> outages[i].failed < limit)
  }

  lemma {:induction false} AllToldMore(outages: seq<Outage>, o: Outage, limit: nat, n: nat)
    requires n <= |outages|
    ensures AllTold(outages + [o], limit, n) == AllTold(outages, limit, n)
  {
    if n > 0 { AllToldMore(outages, o, limit, n - 1); }
  }

  /** Some events are those of past outages and of the failed restarts still remembered. */
  ghost predicate Explains(past: seq<Outage>, events: seq<Event>, m: Memory, limit: nat) {
    && WithinLimit(past, limit) && m.attempts <= limit
    && (m.exhausted <==> m.attempts == limit)
    && events == AllTold(past, limit, |past|) + Failing(m.attempts, limit)
  }

  lemma OutageEnds(past: seq<Outage>, events: seq<Event>, m: Memory, c: Check, limit: nat)
    requires Explains(past, events, m, limit) && limit >= 1
    requires c.active || (!m.exhausted && c.restartWorks)
    ensures var o := Outage(m.attempts, if c.active then ActiveAgain else RestartWorked);
      Explains(past + [o], events + Publish(m, c, limit), Remember(m, c, limit), limit)
  {
    var o := Outage(m.attempts, if c.active then ActiveAgain else RestartWorked);
    AllToldMore(past, o, limit, |past|);
    assert events + Publish(m, c, limit) == AllTold(past, limit, |past|) + Told(o, limit) + Failing(0, limit);
  }

  lemma OutageGoesOn(past: seq<Outage>, events: seq<Event>, m: Memory, c: Check, limit: nat)
    requires Explains(past, events, m, limit) && limit >= 1
    requires !c.active && (m.exhausted || !c.restartWorks)
    ensures Explains(past, events + Publish(m, c, limit), Remember(m, c, limit), limit)
  {
    if !m.exhausted {
      var k := m.attempts + 1;
      assert Failing(k, limit) == Failing(k - 1, limit) + Publish(m, c, limit);
    }
  }

  /** Over every run the events published for a service are those of its past outages followed
      by those of the failed restarts of the current one, every outage within the limit. */
  lemma {:induction false} TraceIsOutages(checks: seq<Check>, limit: nat, n: nat)
    returns (past: seq<Outage>)
    requires n <= |checks| && limit >= 1
    ensures Explains(past, Trace(checks, limit, n), After(checks, limit, n), limit)
  {
    past := [];
    if n > 0 {
      past := TraceIsOutages(checks, limit, n - 1);
      hide Explains, Publish, Remember;
      var m, c, events := After(checks, limit, n - 1), checks[n - 1], Trace(checks, limit, n - 1);
      if c.active || (!m.exhausted && c.restartWorks) {
        OutageEnds(past, events, m, c, limit);
        past := past + [Outage(m.attempts, if c.active then ActiveAgain else RestartWorked)];
      } else {
        OutageGoesOn(past, events, m, c, limit);
      }
    }
  }

  function Exhaustions(events: seq<Event>, n: nat): nat
    requires n <= |events|
  {
    if n == 0 then 0 else Exhaustions(events, n - 1) + (if events[n - 1].RestartExhausted? then 1 else 0)
  }

  lemma {:induction false} ExhaustionsPart(a: seq<Event>, b: seq<Event>, d: nat, n: nat)
    requires n <= |a| && d + n <= |b| && forall k :: 0 <= k < n ==> a[k] == b[d + k]
    ensures Exhaustions(b, d + n) == Exhaustions(b, d) + Exhaustions(a, n)
  {
    if n > 0 { ExhaustionsPart(a, b, d, n - 1); }
  }

  lemma ExhaustionsAppend(a: seq<Event>, b: seq<Event>)
    ensures Exhaustions(a + b, |a + b|) == Exhaustions(a, |a|) + Exhaustions(b, |b|)
  {
    hide Exhaustions;
    var c := a + b;
    ExhaustionsPart(a, c, 0, |a|);
    ExhaustionsPart(b, c, |a|, |b|);
    NoExhaustions(c);
  }

  lemma NoExhaustions(events: seq<Event>)
    ensures Exhaustions(events, 0) == 0
  {
  }

  /** An outage tells of exhaustion exactly once if its failed restarts reach the limit, and
      never otherwise. */
  lemma {:induction false} FailingExhausts(k: nat, limit: nat)
    requires limit >= 1
    ensures Exhaustions(Failing(k, limit), |Failing(k, limit)|) == if k >= limit then 1 else 0
  {
    if k > 0 {
      FailingExhausts(k - 1, limit);
      var last := [FailureDetected(k), RestartResult(k, false)];
      ExhaustionsAppend(Failing(k - 1, limit), last);
      assert Exhaustions(last, 1) == 0;
      if k == limit {
        var told := [RestartExhausted];
        ExhaustionsAppend(Failing(k - 1, limit) + last, told);
        assert Exhaustions(told, 0) == 0;
      } else {
        assert Failing(k, limit) == Failing(k - 1, limit) + last;
      }
    }
  }

  /** The past outages among the first `n` whose failed restarts reached the limit. */
  function Exhausted(outages: seq<Outage>, limit: nat, n: nat): nat
    requires n <= |outages|
  {
    if n == 0 then 0 else Exhausted(outages, limit, n - 1) + (if outages[n - 1].failed == limit then 1 else 0)
  }

  lemma ToldExhausts(o: Outage, limit: nat)
    requires limit >= 1 && o.failed <= limit
    ensures Exhaustions(Told(o, limit), |Told(o, limit)|) == if o.failed == limit then 1 else 0
  {
    FailingExhausts(o.failed, limit);
    var last := if o.end.RestartWorked? then [FailureDetected(o.failed + 1), RestartResult(o.failed + 1, true)] else [];
    ExhaustionsAppend(Failing(o.failed, limit), last);
    assert o.end.RestartWorked? ==> Exhaustions(last, 1) == 0;
  }

  lemma {:induction false} AllToldExhausts(outages: seq<Outage>, limit: nat, n: nat)
    requires n <= |outages| && limit >= 1 && WithinLimit(outages, limit)
    ensures Exhaustions(AllTold(outages, limit, n), |AllTold(outages, limit, n)|) == Exhausted(outages, limit, n)
  {
    if n > 0 {
      AllToldExhausts(outages, limit, n - 1);
      ToldExhausts(outages[n - 1], limit);
      ExhaustionsAppend(AllTold(outages, limit, n - 1), Told(outages[n - 1], limit));
    }
  }

  /** Over every run exhaustion is published exactly as often as an outage's failed restarts
      reached the limit: once for each such past outage, and once if the memory is exhausted. */
  lemma ExhaustionsPublished(checks: seq<Check>, limit: nat, n: nat) returns (past: seq<Outage>)
    requires n <= |checks| && limit >= 1
    ensures Explains(past, Trace(checks, limit, n), After(checks, limit, n), limit)
    ensures Exhaustions(Trace(checks, limit, n), |Trace(checks, limit, n)|)
      == Exhausted(past, limit, |past|) + (if After(checks, limit, n).exhausted then 1 else 0)
  {
    past := TraceIsOutages(checks, limit, n);
    var m := After(checks, limit, n);
    AllToldExhausts(past, limit, |past|);
    FailingExhausts(m.attempts, limit);
    ExhaustionsAppend(AllTold(past, limit, |past|), Failing(m.attempts, limit));
  }

  // ----- the monitor

  /** A name occurs in a list before any occurrence of another one. */
  ghost predicate ComesBefore(raw: seq<string>, s: string, t: string) {
    exists a :: 0 <= a < |raw| && Strip(raw[a]) == s && forall b :: 0 <= b <= a ==> Strip(raw[b]) != t
  }

  /** A service list entry is stripped; empty entries and repetitions are left out. */
  method ConfiguredServices(raw: seq<string>) returns (services: seq<string>)
    ensures Distinct(services)
    ensures forall i, j :: 0 <= i < j < |services| ==> ComesBefore(raw, services[i], services[j])
    ensures forall s :: s in services <==> s != "" && exists i :: 0 <= i < |raw| && Strip(raw[i]) == s
  {
    hide Strip;
    services := [];
    for k := 0 to |raw|
      invariant forall i, j :: 0 <= i < j < |services| ==> services[i] != services[j]
      invariant forall s :: s in services <==> s != "" && exists i :: 0 <= i < k && Strip(raw[i]) == s
      invariant forall i, j :: 0 <= i < j < |services| ==> ComesBefore(raw, services[i], services[j])
    {
      var name := Strip(raw[k]);
      if name != "" && name !in services {
        forall i | 0 <= i < |services| ensures ComesBefore(raw, services[i], name) {
          assert services[i] in services;
          var a :| 0 <= a < k && Strip(raw[a]) == services[i];
        }
        services := services + [name];
      }
    }
  }

  function IntConfig(raw: Option<int>, default: int, minimum: int): (n: int)
    ensures default >= minimum ==> n >= minimum
    ensures raw == None ==> n == default
    ensures raw.Some? ==> n == minimum || n == raw.value
    ensures raw.Some? && raw.value >= minimum ==> n == raw.value
  {
    match raw
    case None => default
    case Some(value) => if value < minimum then minimum else value
  }

  function Of(published: seq<(string, Event)>, service: string): seq<Event> {
    if published == [] then [] else
      var n := |published| - 1;
      Of(published[..n], service) + (if published[n].0 == service then [published[n].1] else [])
  }

  lemma OfMore(published: seq<(string, Event)>, service: string, event: Event, other: string)
    ensures Of(published + [(service, event)], other) ==
      Of(published, other) + (if other == service then [event] else [])
  {
    assert (published + [(service, event)])[..|published|] == published;
  }

  /** One round of the monitor: which services it is configured for, when, and what it sees. */
  datatype Round = Round(services: seq<string>, now: int, interval: int, sees: string -> Check)

  predicate DueAt(round: Round, last: Option<int>) {
    round.services != [] && (last.Some? ==> round.now - last.value >= round.interval)
  }

  /** When the last of the first `n` rounds that was due took place. */
  function LastDue(rounds: seq<Round>, n: nat): Option<int>
    requires n <= |rounds|
  {
    if n == 0 then None
    else if DueAt(rounds[n - 1], LastDue(rounds, n - 1)) then Some(rounds[n - 1].now)
    else LastDue(rounds, n - 1)
  }

  predicate Due(rounds: seq<Round>, i: nat)
    requires i < |rounds|
  {
    DueAt(rounds[i], LastDue(rounds, i))
  }

  ghost predicate InTime(rounds: seq<Round>) {
    forall i, j :: 0 <= i < j < |rounds| ==> rounds[i].now <= rounds[j].now
  }

  lemma {:induction false} LastDueIsLatest(rounds: seq<Round>, n: nat)
    requires n <= |rounds| && InTime(rounds)
    ensures var last := LastDue(rounds, n);
      && (last == None ==> forall j :: 0 <= j < n ==> !Due(rounds, j))
      && (last.Some? ==> (exists j :: 0 <= j < n && Due(rounds, j) && rounds[j].now == last.value)
                         && forall j :: 0 <= j < n && Due(rounds, j) ==> rounds[j].now <= last.value)
  {
    hide DueAt;
    if n > 0 {
      LastDueIsLatest(rounds, n - 1);
      if Due(rounds, n - 1) { assert LastDue(rounds, n) == Some(rounds[n - 1].now); }
    }
  }

  /** Which rounds check the services: those with services configured that come no sooner than
      their interval after every earlier round that did. */
  lemma DueIff(rounds: seq<Round>, i: nat)
    requires i < |rounds| && InTime(rounds)
    ensures Due(rounds, i) <==>
      && rounds[i].services != []
      && forall j :: 0 <= j < i && Due(rounds, j) ==> rounds[i].now - rounds[j].now >= rounds[i].interval
  {
    LastDueIsLatest(rounds, i);
    if LastDue(rounds, i).Some? {
      var j :| 0 <= j < i && Due(rounds, j) && rounds[j].now == LastDue(rounds, i).value;
    }
  }

  /** What the first `n` rounds see of a service. */
  function ChecksOf(rounds: seq<Round>, service: string, n: nat): seq<Check>
    requires n <= |rounds|
  {
    if n == 0 then [] else
      var round := rounds[n - 1];
      ChecksOf(rounds, service, n - 1)
      + (if DueAt(round, LastDue(rounds, n - 1)) && service in round.services then [round.sees(service)] else [])
  }

  lemma {:induction false} TracePrefix(checks: seq<Check>, c: Check, limit: nat, n: nat)
    requires n <= |checks|
    ensures After(checks + [c], limit, n) == After(checks, limit, n)
    ensures Trace(checks + [c], limit, n) == Trace(checks, limit, n)
  {
    if n > 0 { TracePrefix(checks, c, limit, n - 1); }
  }

  ghost predicate Distinct(services: seq<string>) {
    forall i, j :: 0 <= i < j < |services| ==> services[i] != services[j]
  }

  class Monitor {
    const limit: nat
    var lastCheckAt: Option<int>
    var attemptsByService: map<string, nat>
    var exhaustedServices: set<string>
    var published: seq<(string, Event)>

    constructor (rawLimit: Option<int>)
      ensures limit == IntConfig(rawLimit, 3, 1) && limit >= 1
      ensures lastCheckAt == None && forall s :: Follows(s, [])
    {
      limit := IntConfig(rawLimit, 3, 1);
      lastCheckAt, attemptsByService, exhaustedServices, published := None, map[], {}, [];
    }

    ghost function MemoryOf(service: string): Memory
      reads this
    {
      Memory(if service in attemptsByService then attemptsByService[service] else 0, service in exhaustedServices)
    }

    /** What the monitor did for a service is what its own checks alone call for. */
    ghost predicate Follows(service: string, checks: seq<Check>)
      reads this
    {
      MemoryOf(service) == After(checks, limit, |checks|) && Of(published, service) == Trace(checks, limit, |checks|)
    }

    method Announce(service: string, event: Event)
      modifies this`published
      ensures published == old(published) + [(service, event)]
      ensures forall s :: Of(published, s) == old(Of(published, s)) + (if s == service then [event] else [])
    {
      forall s
        ensures Of(published + [(service, event)], s) == Of(published, s) + (if s == service then [event] else []) {
        OfMore(published, service, event, s);
      }
      published := published + [(service, event)];
    }

    method Forget(service: string)
      modifies this`attemptsByService, this`exhaustedServices
      ensures forall s :: MemoryOf(s) == if s == service then FORGOTTEN else old(MemoryOf(s))
    {
      attemptsByService := attemptsByService - {service};
      exhaustedServices := exhaustedServices - {service};
    }

    /** The body of the loop over services. */
    method CheckService(service: string, c: Check)
      modifies this`attemptsByService, this`exhaustedServices, this`published
      ensures MemoryOf(service) == Remember(old(MemoryOf(service)), c, limit)
      ensures Of(published, service) == old(Of(published, service)) + Publish(old(MemoryOf(service)), c, limit)
      ensures forall s :: s != service ==> MemoryOf(s) == old(MemoryOf(s)) && Of(published, s) == old(Of(published, s))
    {
      hide Of;
      if c.active {
        Forget(service);
        return;
      }
      if service in exhaustedServices { return; }
      var attempt := (if service in attemptsByService then attemptsByService[service] else 0) + 1;
      attemptsByService := attemptsByService[service := attempt];
      Announce(service, FailureDetected(attempt));
      Announce(service, RestartResult(attempt, c.restartWorks));
      assert Of(published, service) ==
        old(Of(published, service)) + [FailureDetected(attempt), RestartResult(attempt, c.restartWorks)];
      if c.restartWorks {
        Forget(service);
        return;
      }
      if attempt >= limit {
        exhaustedServices := exhaustedServices + {service};
        Announce(service, RestartExhausted);
      }
    }

    /** One round: each configured service is checked once, on its own memory alone. */
    method Collect(round: Round)
      requires Distinct(round.services)
      modifies this
      ensures lastCheckAt == if DueAt(round, old(lastCheckAt)) then Some(round.now) else old(lastCheckAt)
      ensures DueAt(round, old(lastCheckAt)) ==> forall s :: s in round.services ==>
        && MemoryOf(s) == Remember(old(MemoryOf(s)), round.sees(s), limit)
        && Of(published, s) == old(Of(published, s)) + Publish(old(MemoryOf(s)), round.sees(s), limit)
      ensures forall s :: !DueAt(round, old(lastCheckAt)) || s !in round.services ==>
        MemoryOf(s) == old(MemoryOf(s)) && Of(published, s) == old(Of(published, s))
    {
      hide Remember, Publish, Of;
      if |round.services| == 0 { return; }
      if lastCheckAt.Some? && round.now - lastCheckAt.value < round.interval { return; }
      lastCheckAt := Some(round.now);
      for k := 0 to |round.services|
        invariant lastCheckAt == Some(round.now)
        invariant forall s :: s in round.services[..k] ==>
          && MemoryOf(s) == Remember(old(MemoryOf(s)), round.sees(s), limit)
          && Of(published, s) == old(Of(published, s)) + Publish(old(MemoryOf(s)), round.sees(s), limit)
        invariant forall s :: s !in round.services[..k] ==>
          MemoryOf(s) == old(MemoryOf(s)) && Of(published, s) == old(Of(published, s))
      {
        CheckService(round.services[k], round.sees(round.services[k]));
        assert round.services[..k + 1] == round.services[..k] + [round.services[k]];
      }
      assert round.services[..|round.services|] == round.services;
    }

    /** Over any rounds, the events published for a service are the trace of what was seen of
        that service, whatever happens to the others. */
    method Watch(rounds: seq<Round>)
      requires lastCheckAt == None && forall s :: Follows(s, [])
      requires forall k :: 0 <= k < |rounds| ==> Distinct(rounds[k].services)
      modifies this
      ensures forall s :: Follows(s, ChecksOf(rounds, s, |rounds|))
    {
      hide Remember, Publish, Of;
      for k := 0 to |rounds|
        invariant lastCheckAt == LastDue(rounds, k)
        invariant forall s :: Follows(s, ChecksOf(rounds, s, k))
      {
        label before:
        Collect(rounds[k]);
        var n := k + 1;
        forall s ensures Follows(s, ChecksOf(rounds, s, n)) {
          var checks, c := ChecksOf(rounds, s, k), rounds[k].sees(s);
          assert old@before(Follows(s, checks));
          TracePrefix(checks, c, limit, |checks|);
          if DueAt(rounds[k], LastDue(rounds, k)) && s in rounds[k].services {
            assert ChecksOf(rounds, s, n) == checks + [c];
            assert (checks + [c])[|checks|] == c;
          } else {
            assert ChecksOf(rounds, s, n) == checks;
          }
        }
      }
    }
  }
}
