/** Reconciling the live firewall with the desired rules and policy, on the two backends: ufw
    deletes single rules, nftables can only flush its chain. */
module Firewall {
  import opened Common
  import opened Text

  datatype Rule = Rule(source: string, port: int, protocol: string)

  datatype Policy = Deny | Allow

  /** What a backend reports of its policy; nftables says drop and accept for deny and allow. */
  datatype LivePolicy = Known(policy: Policy) | Unknown

  datatype Verdict = Drop | Accept | OtherVerdict

  function ParseNftPolicy(v: Verdict): LivePolicy {
    match v
    case Drop => Known(Deny)
    case Accept => Known(Allow)
    case OtherVerdict => Unknown
  }

  function NormalizePolicyForNft(p: Policy): (v: Verdict)
    ensures ParseNftPolicy(v) == Known(p)
    ensures v == if p.Deny? then Drop else Accept
  {
    match p
    case Deny => Drop
    case Allow => Accept
  }

  datatype Backend = Ufw(policy: LivePolicy) | Nftables(chain: Option<Verdict>)

  /** The live firewall: the backend's policy or chain, and the rules it lists. */
  datatype Live = Live(backend: Backend, rules: set<Rule>)

  const ANY := "any"
  const EVERYWHERE := "0.0.0.0/0"
  const ANYWHERE := [ANY, "anywhere", EVERYWHERE, "::/0"]

  /** A source as the listings name it: every spelling of "from anywhere" alike. */
  function NormalizeSource(source: string): string {
    var cleaned := Strip(source);
    if Lowered(cleaned) in ANYWHERE then ANY else cleaned
  }

  /** The spellings of "from anywhere", in any case and with white space around them, and no
      other source, are listed as "any". */
  lemma SpellingsOfAny(before: string, source: string, after: string)
    requires AllSpaces(before) && AllSpaces(after) && source != ""
    requires !IsSpace(source[0]) && !IsSpace(source[|source| - 1])
    ensures NormalizeSource(before + (source + after)) ==
      if Lowered(source) in ["any", "anywhere"] || source in ["0.0.0.0/0", "::/0"] then "any" else source
  {
    StripAround(before, source, after);
    hide Strip;
    SameWithoutLetters(source, EVERYWHERE);
    SameWithoutLetters(source, "::/0");
  }

  lemma SameWithoutLetters(s: string, t: string)
    requires forall i :: 0 <= i < |t| ==> !('a' <= t[i] <= 'z') && !('A' <= t[i] <= 'Z')
    ensures Lowered(s) == t <==> s == t
  {
    if Lowered(s) == t { assert forall i :: 0 <= i < |s| ==> Lower(s[i]) == t[i]; }
    if s == t { assert forall i :: 0 <= i < |s| ==> Lower(s[i]) == s[i]; }
  }

  /** A rule as the backend lists it back. */
  function Listed(r: Rule): Rule { r.(source := NormalizeSource(r.source)) }

  /** A rule whose source is written as listings write it: without white space around it, and
      not one of the other spellings of "any". */
  predicate Canonical(r: Rule) {
    Strip(r.source) == r.source && (r.source == ANY || Lowered(r.source) !in ANYWHERE)
  }

  /** Exactly the canonical rules are listed back as they are, and listing always gives one. */
  lemma ListedIffCanonical(r: Rule)
    ensures Canonical(r) <==> Listed(r) == r
    ensures Canonical(Listed(r))
  {
    hide Strip;
    StripTwice(r.source);
    StripClean(ANY);
  }

  const NFT_PROTOCOLS := ["tcp", "udp"]

  /** Whether the reader of a backend's listing sees a stored rule: not one with a negative port,
      and on nftables not one of another protocol. */
  predicate Seen(b: Backend, r: Rule) { r.port >= 0 && (b.Nftables? ==> r.protocol in NFT_PROTOCOLS) }

  function Listing(b: Backend, r: Rule): set<Rule> { if Seen(b, r) then {Listed(r)} else {} }

  predicate Listable(b: Backend, r: Rule) { Canonical(r) && Seen(b, r) }

  /** Exactly the listable rules are listed back, and back as they are. */
  lemma ListingIffListable(b: Backend, r: Rule)
    ensures Listable(b, r) <==> Listing(b, r) == {r}
    ensures forall l :: l in Listing(b, r) ==> Listable(b, l)
  {
    hide Canonical;
    ListedIffCanonical(r);
    assert Listing(b, r) == {r} ==> r in Listing(b, r);
  }

  /** In plain terms: no white space around the source, no other spelling of "any", no negative
      port, and on nftables tcp or udp. */
  lemma ListableIff(b: Backend, r: Rule)
    ensures Listable(b, r) <==>
      && Strip(r.source) == r.source
      && (r.source == "any" || Lowered(r.source) !in ["any", "anywhere", "0.0.0.0/0", "::/0"])
      && r.port >= 0 && (b.Nftables? ==> r.protocol == "tcp" || r.protocol == "udp")
  {
    hide Strip;
  }

  function AllListed(b: Backend, rules: set<Rule>): set<Rule> { set r | r in rules && Seen(b, r) :: Listed(r) }

  /** A live state lists listable rules only, and none without a chain. */
  predicate Real(f: Live) {
    (forall r :: r in f.rules ==> Listable(f.backend, r)) && (f.backend == Nftables(None) ==> f.rules == {})
  }

  function CapturedPolicy(f: Live): Option<LivePolicy> {
    match f.backend
    case Ufw(policy) => Some(policy)
    case Nftables(None) => None
    case Nftables(Some(v)) => Some(ParseNftPolicy(v))
  }

  datatype Desired = Desired(policy: Option<Policy>, rules: set<Rule>)

  predicate PolicyDrift(f: Live, d: Desired) {
    d.policy.Some? && CapturedPolicy(f) != Some(Known(d.policy.value))
  }

  predicate Drift(f: Live, d: Desired) {
    PolicyDrift(f, d) || d.rules != f.rules
  }

  // ----- the operations of the backends

  function EnsureChain(f: Live, v: Verdict): Live {
    if f.backend == Nftables(None) then Live(Nftables(Some(v)), {}) else f
  }

  function ApplyPolicy(f: Live, p: Policy): Live {
    match f.backend
    case Ufw(_) => f.(backend := Ufw(Known(p)))
    case Nftables(_) => EnsureChain(f, NormalizePolicyForNft(p)).(rules := {})
  }

  function RemoveRule(f: Live, r: Rule): Live {
    if f.backend.Ufw? then f.(rules := f.rules - {Listed(r)}) else f.(rules := {})
  }

  function EnsureRule(f: Live, r: Rule): Live {
    var ready := if f.backend.Ufw? then f else EnsureChain(f, Drop);
    ready.(rules := ready.rules + Listing(f.backend, r))
  }

  // ----- a run

  /** The state after removing rules one by one: on nftables each removal flushes the chain. */
  function Emptied(f: Live, unexpected: set<Rule>): Live {
    f.(rules := if f.backend.Ufw? then f.rules - unexpected else if unexpected == {} then f.rules else {})
  }

  function Filled(f: Live, missing: set<Rule>): Live {
    if missing == {} then f
    else (if f.backend.Ufw? then f else EnsureChain(f, Drop)).(rules := f.rules + AllListed(f.backend, missing))
  }

  /** The state an enforced run leaves when none of its operations fails. */
  function Reconciled(f: Live, d: Desired): Live {
    var polished := if PolicyDrift(f, d) then ApplyPolicy(f, d.policy.value) else f;
    Filled(Emptied(polished, f.rules - d.rules), d.rules - f.rules)
  }

  datatype Outcome = Matched | DriftReported | Enforced | Failed

  class Host {
    var live: Live

    constructor (live: Live)
      ensures this.live == live
    {
      this.live := live;
    }

    /** An operation has its effect, or fails and leaves `half` of it. */
    method Operate(after: Live, half: Live, works: bool) returns (ok: bool)
      modifies this
      ensures ok == works && live == if works then after else half
    {
      ok := works;
      live := if works then after else half;
    }
  }

  /** What an operation that fails leaves: all as it was, but if `begun` with the chain it had
      to create. */
  function Half(f: Live, v: Verdict, begun: bool): Live { if begun then EnsureChain(f, v) else f }

  /** The tool. A run's `patience` is the number of its operations that work; the next one
      fails, and `begun` says whether it got as far as creating a chain. */
  class FirewallTool {
    const desired: Desired
    const enforce: bool
    var alerts: nat

    constructor (desired: Desired, enforce: bool)
      ensures this.desired == desired && this.enforce == enforce && alerts == 0
    {
      this.desired, this.enforce, this.alerts := desired, enforce, 0;
    }

    method RemoveUnexpected(host: Host, unexpected: set<Rule>, patience: nat) returns (ok: bool, left: nat)
      requires Real(host.live) && forall r :: r in unexpected ==> Canonical(r)
      modifies host
      ensures ok <==> patience >= |unexpected|
      ensures ok ==> left == patience - |unexpected| && host.live == Emptied(old(host.live), unexpected)
      ensures Real(host.live) && host.live.backend == old(host.live.backend)
      ensures host.live.backend.Ufw? ==>
        old(host.live.rules) - unexpected <= host.live.rules <= old(host.live.rules)
      ensures !ok && host.live.backend.Nftables? ==>
        host.live.rules == if patience == 0 then old(host.live.rules) else {}
    {
      hide Canonical, Listed, Listable;
      left := patience;
      var todo := unexpected;
      ghost var gone: set<Rule> := {};
      while todo != {}
        invariant gone <= unexpected && todo == unexpected - gone && left == patience - |gone|
        invariant Real(host.live) && host.live == Emptied(old(host.live), gone)
        decreases todo
      {
        var r :| r in todo;
        Fits(gone, unexpected, r);
        ListedIffCanonical(r);
        ok := host.Operate(RemoveRule(host.live, r), host.live, left > 0);
        if !ok { return; }
        left := left - 1;
        todo, gone := todo - {r}, gone + {r};
      }
      assert gone == unexpected;
      ok := true;
    }

    method EnsureMissing(host: Host, missing: set<Rule>, patience: nat, begun: bool) returns (ok: bool)
      requires Real(host.live)
      modifies host
      ensures ok <==> patience >= |missing|
      ensures ok ==> host.live == Filled(old(host.live), missing)
      ensures Real(host.live) && KeepsBackend(old(host.live), host.live)
      ensures old(host.live.rules) <= host.live.rules <=
        old(host.live.rules) + AllListed(old(host.live.backend), missing)
    {
      hide Filled, EnsureRule, Real, AllListed, Half, KeepsBackend;
      var left := patience;
      var todo := missing;
      ghost var added: set<Rule> := {};
      ghost var all := AllListed(host.live.backend, missing);
      FillNone(host.live);
      while todo != {}
        invariant added <= missing && todo == missing - added && left == patience - |added|
        invariant Real(host.live) && host.live == Filled(old(host.live), added)
        invariant old(host.live.rules) <= host.live.rules <= old(host.live.rules) + all
        invariant KeepsBackend(old(host.live), host.live)
        decreases todo
      {
        var r :| r in todo;
        Fits(added, missing, r);
        HalfIsReal(old(host.live), host.live, Drop, begun);
        ok := host.Operate(EnsureRule(host.live, r), Half(host.live, Drop, begun), left > 0);
        if !ok { return; }
        left := left - 1;
        FillOne(old(host.live), added, r);
        ListedWithin(old(host.live.backend), added + {r}, missing);
        todo, added := todo - {r}, added + {r};
      }
      assert added == missing;
      ok := true;
    }

    method Enforce(host: Host, patience: nat, begun: bool) returns (ok: bool)
      requires Real(host.live) && Drift(host.live, desired)
      modifies host
      ensures Real(host.live) && KeepsBackend(old(host.live), host.live)
      ensures ok ==> host.live == Reconciled(old(host.live), desired)
      ensures ok <==> patience >= Operations(old(host.live), desired)
      ensures !ok && AllListable(old(host.live.backend), desired) ==>
        Halfway(old(host.live), host.live, desired, patience)
    {
      hide Real, Emptied, Filled, AllListed, Half, AllListable, Canonical,
        ApplyPolicy, Halfway, Operations, PolicyDrift, Drift;
      var before := host.live;
      var missing, unexpected := desired.rules - before.rules, before.rules - desired.rules;
      MissingListed(before.backend, missing, desired);
      LiveIsCanonical(before);
      OperationsAre(before, desired);
      var left := patience;
      if PolicyDrift(before, desired) {
        var policy := desired.policy.value;
        PolicyIsReal(before, policy, begun);
        ok := host.Operate(ApplyPolicy(before, policy), Half(before, NormalizePolicyForNft(policy), begun), left > 0);
        if !ok {
          IsHalfway(before, host.live, desired, patience, before.rules);
          return;
        }
        left := left - 1;
      }
      ghost var polished := host.live;
      assert polished.rules == if before.backend.Nftables? && PolicyDrift(before, desired) then {} else before.rules;
      ok, left := RemoveUnexpected(host, unexpected, left);
      if !ok {
        IsHalfway(before, host.live, desired, patience, host.live.rules);
        return;
      }
      EmptiedRules(polished, unexpected);
      ghost var base := host.live.rules;
      ok := EnsureMissing(host, missing, left, begun);
      if !ok && AllListable(before.backend, desired) {
        ListedAlike(before.backend, polished.backend, missing);
        IsHalfway(before, host.live, desired, patience, base);
      }
    }

    /** One run. With enough patience an enforced run leaves exactly the reconciled state; what
        a run that fails halfway leaves, `Halfway` tells. */
    method Run(host: Host, patience: nat, begun: bool) returns (outcome: Outcome)
      requires Real(host.live)
      modifies this, host
      ensures Real(host.live)
      ensures alerts == old(alerts) + if Drift(old(host.live), desired) then 1 else 0
      ensures outcome == Matched <==> !Drift(old(host.live), desired)
      ensures outcome == DriftReported <==> Drift(old(host.live), desired) && !enforce
      ensures outcome == Matched || outcome == DriftReported ==> host.live == old(host.live)
      ensures outcome == Enforced ==> host.live == Reconciled(old(host.live), desired)
      ensures outcome == Failed <==>
        Drift(old(host.live), desired) && enforce && patience < Operations(old(host.live), desired)
      ensures outcome == Failed && AllListable(old(host.live.backend), desired) ==>
        Halfway(old(host.live), host.live, desired, patience)
    {
      hide Real, Drift, Reconciled, Halfway, AllListable, Operations;
      if !Drift(host.live, desired) { return Matched; }
      alerts := alerts + 1;
      if !enforce { return DriftReported; }
      var ok := Enforce(host, patience, begun);
      return if ok then Enforced else Failed;
    }
  }

  /** The operations of an enforced run. */
  ghost function Operations(f: Live, d: Desired): nat {
    (if PolicyDrift(f, d) then 1 else 0) + |f.rules - d.rules| + |d.rules - f.rules|
  }

  lemma OperationsAre(f: Live, d: Desired)
    ensures Operations(f, d) == (if PolicyDrift(f, d) then 1 else 0) + |f.rules - d.rules| + |d.rules - f.rules|
    ensures PolicyDrift(f, d) ==> d.policy.Some?
    ensures |f.rules - d.rules| > 0 <==> f.rules - d.rules != {}
  {
  }

  /** The backend stays, and on nftables an existing chain with its policy; one may be created. */
  ghost predicate KeepsBackend(before: Live, after: Live) {
    && (before.backend.Ufw? <==> after.backend.Ufw?)
    && (before.backend.Nftables? && before.backend.chain.Some? ==> after.backend == before.backend)
  }

  /** Whether an enforced run flushes the nftables chain, and then with its first operation. */
  predicate Flushes(f: Live, d: Desired) { f.backend.Nftables? && (PolicyDrift(f, d) || f.rules - d.rules != {}) }

  /** What a failed run leaves. Nothing but missing desired rules was added. On ufw, and on
      nftables if no flush was due, no desired rule was lost; if one was, every rule that was
      live is gone as soon as one operation worked. */
  ghost predicate Halfway(before: Live, after: Live, d: Desired, patience: nat) {
    var added := after.rules - before.rules;
    && added <= d.rules - before.rules
    && (before.backend.Ufw? ==> d.rules * before.rules <= after.rules)
    && (before.backend.Nftables? ==>
          after.rules == if Flushes(before, d) && patience > 0 then added else before.rules + added)
  }

  /** What is taken from a set does not outnumber it. */
  lemma Fits(part: set<Rule>, whole: set<Rule>, r: Rule)
    requires part <= whole && r in whole - part
    ensures |part + {r}| == |part| + 1 <= |whole|
  {
    var rest := whole - (part + {r});
    assert whole == part + {r} + rest && (part + {r}) !! rest;
    assert |whole| == |part + {r}| + |rest|;
  }

  lemma IsHalfway(before: Live, after: Live, d: Desired, patience: nat, base: set<Rule>)
    requires before.backend.Ufw? ==> d.rules * before.rules <= base <= before.rules
    requires before.backend.Nftables? ==> base == if Flushes(before, d) && patience > 0 then {} else before.rules
    requires base <= after.rules <= base + (d.rules - before.rules)
    ensures Halfway(before, after, d, patience)
  {
    assert after.rules - before.rules <= d.rules - before.rules;
  }

  lemma EmptiedRules(f: Live, unexpected: set<Rule>)
    ensures Emptied(f, unexpected).rules ==
      if f.backend.Ufw? then f.rules - unexpected else if unexpected == {} then f.rules else {}
  {
  }

  lemma ListedMore(b: Backend, rules: set<Rule>, r: Rule)
    ensures AllListed(b, rules + {r}) == AllListed(b, rules) + Listing(b, r)
  {
  }

  lemma ListedAlike(b: Backend, c: Backend, rules: set<Rule>)
    requires b.Ufw? <==> c.Ufw?
    ensures AllListed(b, rules) == AllListed(c, rules)
  {
    hide Listed;
    assert forall r :: Seen(b, r) == Seen(c, r);
  }

  lemma ListedWithin(b: Backend, part: set<Rule>, whole: set<Rule>)
    requires part <= whole
    ensures AllListed(b, part) <= AllListed(b, whole)
  {
  }

  lemma LiveIsCanonical(f: Live)
    requires Real(f)
    ensures forall r :: r in f.rules ==> Canonical(r)
  {
  }

  lemma HalfIsReal(start: Live, f: Live, v: Verdict, begun: bool)
    requires Real(f) && KeepsBackend(start, f)
    ensures Real(Half(f, v, begun)) && Half(f, v, begun).rules == f.rules && KeepsBackend(start, Half(f, v, begun))
  {
  }

  lemma PolicyIsReal(f: Live, p: Policy, begun: bool)
    requires Real(f)
    ensures Real(ApplyPolicy(f, p)) && KeepsBackend(f, ApplyPolicy(f, p))
    ensures ApplyPolicy(f, p).rules == if f.backend.Nftables? then {} else f.rules
    ensures var half := Half(f, NormalizePolicyForNft(p), begun);
      Real(half) && half.rules == f.rules && KeepsBackend(f, half)
  {
  }

  lemma FillNone(f: Live)
    ensures Filled(f, {}) == f && KeepsBackend(f, f)
  {
  }

  lemma FillOne(f: Live, added: set<Rule>, r: Rule)
    requires Real(f) && Real(Filled(f, added))
    ensures EnsureRule(Filled(f, added), r) == Filled(f, added + {r}) && Real(Filled(f, added + {r}))
    ensures f.rules <= Filled(f, added + {r}).rules == f.rules + AllListed(f.backend, added + {r})
    ensures KeepsBackend(f, Filled(f, added + {r}))
  {
    hide Listing, AllListed, Canonical;
    ListingIffListable(f.backend, r);
    ListedMore(f.backend, added, r);
    FilledListing(f, added, r);
    assert f.rules + AllListed(f.backend, added + {r})
      == (f.rules + AllListed(f.backend, added)) + Listing(f.backend, r);
  }

  /** What is listed of a rule depends on which backend it is, not on its state. */
  lemma FilledListing(f: Live, added: set<Rule>, r: Rule)
    ensures var g := Filled(f, added);
      Listing(g.backend, r) == Listing(f.backend, r) && (g.backend.Ufw? <==> f.backend.Ufw?)
      && forall l :: Listable(g.backend, l) == Listable(f.backend, l)
    ensures added == {} ==> AllListed(f.backend, added) == {}
  {
    hide Canonical, Listed;
  }

  lemma MissingListed(b: Backend, rules: set<Rule>, d: Desired)
    requires rules <= d.rules
    ensures AllListable(b, d) ==> AllListed(b, rules) == rules
  {
    hide Canonical, Listed;
    forall r | r in rules { ListedIffCanonical(r); }
    if AllListable(b, d) {
      forall r ensures r in AllListed(b, rules) <==> r in rules {
        if r in rules { assert Listed(r) == r; }
      }
    }
  }

  // ----- convergence

  ghost predicate AllListable(b: Backend, d: Desired) { forall r :: r in d.rules ==> Listable(b, r) }

  /** The state after `n` enforced runs; a run without drift changes nothing. */
  function Runs(f: Live, d: Desired, n: nat): Live {
    if n == 0 then f else
      var g := Runs(f, d, n - 1);
      if Drift(g, d) then Reconciled(g, d) else g
  }

  lemma ListedAreListable(b: Backend, rules: set<Rule>)
    ensures forall l :: l in AllListed(b, rules) ==> Listable(b, l)
  {
    hide Canonical, Listed;
    forall l | l in AllListed(b, rules) ensures Listable(b, l) {
      var r :| r in rules && Seen(b, r) && l == Listed(r);
      ListingIffListable(b, r);
    }
  }

  lemma FilledIsReal(f: Live, missing: set<Rule>)
    requires Real(f)
    ensures Real(Filled(f, missing)) && KeepsBackend(f, Filled(f, missing))
  {
    hide Canonical, Listed, AllListed;
    ListedAreListable(f.backend, missing);
  }

  lemma EmptiedIsReal(f: Live, unexpected: set<Rule>)
    requires Real(f)
    ensures Real(Emptied(f, unexpected)) && Emptied(f, unexpected).backend == f.backend
  {
  }

  lemma ReconciledIsReal(f: Live, d: Desired)
    requires Real(f)
    ensures Real(Reconciled(f, d)) && KeepsBackend(f, Reconciled(f, d))
  {
    hide Real, ApplyPolicy, Emptied, Filled;
    var polished := if PolicyDrift(f, d) then ApplyPolicy(f, d.policy.value) else f;
    if PolicyDrift(f, d) { PolicyIsReal(f, d.policy.value, false); }
    EmptiedIsReal(polished, f.rules - d.rules);
    FilledIsReal(Emptied(polished, f.rules - d.rules), d.rules - f.rules);
  }

  lemma ListableAlike(b: Backend, c: Backend, d: Desired)
    requires b.Ufw? <==> c.Ufw?
    ensures AllListable(b, d) == AllListable(c, d)
  {
    hide Canonical;
    assert forall r :: Listable(b, r) == Listable(c, r);
  }

  lemma {:induction false} RunsAreReal(f: Live, d: Desired, n: nat)
    requires Real(f)
    ensures Real(Runs(f, d, n)) && (Runs(f, d, n).backend.Ufw? <==> f.backend.Ufw?)
    ensures AllListable(Runs(f, d, n).backend, d) == AllListable(f.backend, d)
  {
    hide Real, Drift, Reconciled, AllListable;
    if n > 0 {
      RunsAreReal(f, d, n - 1);
      ReconciledIsReal(Runs(f, d, n - 1), d);
      ListableAlike(Runs(f, d, n).backend, f.backend, d);
    }
  }

  /** With a desired rule that is not listable no state is ever free of drift. */
  lemma NeverMatches(f: Live, d: Desired)
    requires Real(f) && !AllListable(f.backend, d)
    ensures Drift(f, d)
  {
    hide Canonical, Seen;
    var r :| r in d.rules && !Listable(f.backend, r);
    assert r !in f.rules;
  }

  lemma DriftsForever(f: Live, d: Desired, n: nat)
    requires Real(f) && !AllListable(f.backend, d)
    ensures Drift(Runs(f, d, n), d)
  {
    hide Real, AllListable, Drift;
    RunsAreReal(f, d, n);
    NeverMatches(Runs(f, d, n), d);
  }

  /** A desired rule from 0.0.0.0/0 is listed back as one from any, so on either backend the
      drift never ends, however often the firewall is reconciled. */
  lemma EverywhereNeverMatches(f: Live, d: Desired, port: int, protocol: string, n: nat)
    requires Real(f) && Rule(EVERYWHERE, port, protocol) in d.rules
    ensures Listed(Rule(EVERYWHERE, port, protocol)) == Rule(ANY, port, protocol)
    ensures Drift(Runs(f, d, n), d)
  {
    hide Drift, Runs, Real, Seen;
    var r := Rule(EVERYWHERE, port, protocol);
    StripClean(EVERYWHERE);
    assert Lowered(EVERYWHERE) == EVERYWHERE;
    assert !Listable(f.backend, r);
    DriftsForever(f, d, n);
  }

  /** On nftables a desired rule of a protocol like sctp is added and never listed back: after
      any number of runs it is still missing, so each further run adds it once more. */
  lemma OtherProtocolNeverMatches(f: Live, d: Desired, r: Rule, n: nat)
    requires Real(f) && f.backend.Nftables? && r in d.rules && r.protocol !in NFT_PROTOCOLS
    ensures Listing(f.backend, r) == {} && r in d.rules - Runs(f, d, n).rules
    ensures Drift(Runs(f, d, n), d)
  {
    hide Drift, Runs, Canonical;
    RunsAreReal(f, d, n);
    assert !Listable(f.backend, r);
    DriftsForever(f, d, n);
  }

  /** On ufw one enforced run reaches exactly the desired state and the next finds no drift. */
  lemma UfwConverges(f: Live, d: Desired)
    requires Real(f) && f.backend.Ufw? && AllListable(f.backend, d)
    ensures Runs(f, d, 1).rules == d.rules
    ensures CapturedPolicy(Runs(f, d, 1)) == if d.policy.Some? then Some(Known(d.policy.value)) else CapturedPolicy(f)
    ensures !Drift(Runs(f, d, 1), d)
  {
    assert Runs(f, d, 0) == f;
    var missing := d.rules - f.rules;
    MissingListed(f.backend, missing, d);
    assert (f.rules - (f.rules - d.rules)) + missing == d.rules;
    assert missing == {} ==> f.rules - (f.rules - d.rules) == d.rules;
  }

  /** Exactly when enforced runs on ufw ever end the drift: when every desired rule is written
      the way the backend lists it. */
  lemma UfwConvergesIff(f: Live, d: Desired)
    requires Real(f) && f.backend.Ufw?
    ensures (exists n :: !Drift(Runs(f, d, n), d)) <==> AllListable(f.backend, d)
  {
    if AllListable(f.backend, d) {
      UfwConverges(f, d);
    } else {
      forall n ensures Drift(Runs(f, d, n), d) { DriftsForever(f, d, n); }
    }
  }

  /** Whether a chain exists whose policy is not the desired one; it is never changed. */
  predicate Stuck(f: Live, d: Desired) { f.backend.Nftables? && f.backend.chain.Some? && PolicyDrift(f, d) }

  /** Exactly what a complete enforced run on nftables leaves: if a flush was due, just the
      desired rules that were missing, every rule that was live being gone; so it deletes
      desired rules exactly if a flush was due and some were live. */
  lemma NftRunRules(f: Live, d: Desired)
    requires Real(f) && f.backend.Nftables? && AllListable(f.backend, d)
    ensures Reconciled(f, d).rules == if Flushes(f, d) then d.rules - f.rules else d.rules
    ensures d.rules * f.rules <= Reconciled(f, d).rules <==> !Flushes(f, d) || d.rules !! f.rules
  {
    hide Canonical, Listed, AllListed, AllListable;
    MissingListed(f.backend, d.rules - f.rules, d);
    FilledAlike(f, d);
    assert f.rules <= d.rules ==> f.rules + (d.rules - f.rules) == d.rules;
    assert {} + (d.rules - f.rules) == d.rules - f.rules;
  }

  /** The listing of what is missing, taken after a change of policy. */
  lemma FilledAlike(f: Live, d: Desired)
    requires f.backend.Nftables?
    ensures d.policy.Some? ==>
      AllListed(ApplyPolicy(f, d.policy.value).backend, d.rules - f.rules) == AllListed(f.backend, d.rules - f.rules)
  {
    hide Canonical, AllListed;
    if d.policy.Some? { ListedAlike(ApplyPolicy(f, d.policy.value).backend, f.backend, d.rules - f.rules); }
  }

  lemma NftRun(f: Live, d: Desired)
    requires Real(f) && f.backend.Nftables? && AllListable(f.backend, d)
    ensures var g := Reconciled(f, d);
      && (Stuck(f, d) ==> Stuck(g, d))
      && (f.backend.chain.None? ==> !Drift(g, d))
      && (f.backend.chain.Some? && !PolicyDrift(f, d) ==>
            g.backend == f.backend && g.rules == if f.rules <= d.rules then d.rules else d.rules - f.rules)
  {
    hide Canonical, Listed, AllListed, AllListable;
    NftRunRules(f, d);
    assert f.rules <= d.rules <==> f.rules - d.rules == {};
  }

  /** Exactly when one enforced run on nftables ends the drift. */
  lemma NftOneRunIff(f: Live, d: Desired)
    requires Real(f) && f.backend.Nftables? && AllListable(f.backend, d)
    ensures !Drift(Runs(f, d, 1), d) <==>
      !Stuck(f, d) && (f.backend.chain.None? || f.rules <= d.rules || f.rules !! d.rules)
  {
    assert Runs(f, d, 0) == f;
    assert Runs(f, d, 1) == if Drift(f, d) then Reconciled(f, d) else f;
    NftRun(f, d);
    if !Stuck(f, d) && f.backend.chain.Some? && !(f.rules <= d.rules) {
      assert d.rules - f.rules == d.rules <==> f.rules !! d.rules;
    }
  }

  lemma StuckRun(f: Live, d: Desired)
    requires Real(f) && AllListable(f.backend, d) && Stuck(f, d)
    ensures Stuck(Reconciled(f, d), d) && Reconciled(f, d).rules == d.rules - f.rules
  {
    hide Real, AllListable, Reconciled;
    NftRun(f, d);
    NftRunRules(f, d);
  }

  /** An existing chain with another policy keeps it over any number of enforced runs, and each
      run replaces the rules by just those desired ones that were missing: so from the first
      run on they alternate between the two parts of the desired rules. */
  lemma {:induction false} StuckForever(f: Live, d: Desired, n: nat)
    requires Real(f) && AllListable(f.backend, d) && Stuck(f, d)
    ensures Stuck(Runs(f, d, n), d)
    ensures Runs(f, d, n).rules ==
      if n == 0 then f.rules else if n % 2 == 1 then d.rules - f.rules else d.rules * f.rules
  {
    hide AllListable, Real, Reconciled;
    if n > 0 {
      StuckForever(f, d, n - 1);
      RunsAreReal(f, d, n - 1);
      StuckRun(Runs(f, d, n - 1), d);
    }
  }

  /** A stuck chain that lists exactly the desired rules loses them all to every other run. */
  lemma StuckRunDeletes(f: Live, d: Desired, n: nat)
    requires Real(f) && AllListable(f.backend, d) && Stuck(f, d) && f.rules == d.rules
    ensures Runs(f, d, n).rules == if n % 2 == 1 then {} else d.rules
  {
    hide AllListable, Real, Runs;
    StuckForever(f, d, n);
  }

  lemma NftTwoRuns(f: Live, d: Desired)
    requires Real(f) && f.backend.Nftables? && AllListable(f.backend, d) && !Stuck(f, d)
    ensures !Drift(Runs(f, d, 2), d)
  {
    assert Runs(f, d, 0) == f;
    NftRun(f, d);
    RunsAreReal(f, d, 1);
    NftRun(Runs(f, d, 1), d);
  }

  /** What enforced runs on nftables end with: exactly the desired rules, and a chain that drops
      what they do not allow if the policy is to deny, or accepts it if it is to allow. Without
      a desired policy a chain stays as it is, and one that has to be created drops. */
  lemma NftEndsWith(f: Live, d: Desired)
    requires Real(f) && f.backend.Nftables? && AllListable(f.backend, d) && !Stuck(f, d)
    ensures Runs(f, d, 2).rules == d.rules
    ensures d.policy == Some(Deny) ==> Runs(f, d, 2).backend == Nftables(Some(Drop))
    ensures d.policy == Some(Allow) ==> Runs(f, d, 2).backend == Nftables(Some(Accept))
    ensures d.policy == None && f.backend.chain.Some? ==> Runs(f, d, 2).backend == f.backend
    ensures d.policy == None && f.backend.chain.None? && d.rules != {} ==>
      Runs(f, d, 2).backend == Nftables(Some(Drop))
  {
    hide Real, AllListable, Reconciled;
    NftTwoRuns(f, d);
    RunsAreReal(f, d, 2);
    ChainAfter(f, d);
    RunsAreReal(f, d, 1);
    var once, twice := Runs(f, d, 1), Runs(f, d, 2);
    assert Runs(f, d, 0) == f;
    assert once == if Drift(f, d) then Reconciled(f, d) else f;
    assert twice == if Drift(once, d) then Reconciled(once, d) else once;
    ChainAfter(once, d);
    if f.backend.chain.None? { NothingWithoutChain(f); }
  }

  lemma NothingWithoutChain(f: Live)
    requires Real(f) && f.backend.Nftables? && f.backend.chain.None?
    ensures f.rules == {}
  {
    assert f.backend == Nftables(None);
  }

  /** A run leaves an existing chain's policy, and creates one with the desired policy, or one
      that drops if it has a rule to add. */
  lemma ChainAfter(f: Live, d: Desired)
    requires Real(f) && f.backend.Nftables?
    ensures Reconciled(f, d).backend ==
      if f.backend.chain.Some? then f.backend
      else if d.policy == Some(Deny) then Nftables(Some(Drop))
      else if d.policy == Some(Allow) then Nftables(Some(Accept))
      else if d.rules != {} then Nftables(Some(Drop))
      else f.backend
  {
    hide AllListed, Listable;
    if f.backend.chain.None? {
      assert f.backend == Nftables(None);
      assert d.rules - f.rules == d.rules;
    }
    assert d.policy.Some? ==> d.policy.value.Deny? || d.policy.value.Allow?;
  }

  /** Exactly when enforced runs on nftables ever end the drift: when every desired rule is
      written the way it is listed, and no chain exists with another policy than the desired
      one; then two runs suffice. */
  lemma NftConvergesIff(f: Live, d: Desired)
    requires Real(f) && f.backend.Nftables?
    ensures (exists n :: !Drift(Runs(f, d, n), d)) <==> AllListable(f.backend, d) && !Stuck(f, d)
    ensures AllListable(f.backend, d) && !Stuck(f, d) ==> !Drift(Runs(f, d, 2), d)
  {
    if !AllListable(f.backend, d) {
      forall n ensures Drift(Runs(f, d, n), d) { DriftsForever(f, d, n); }
    } else if Stuck(f, d) {
      forall n ensures Drift(Runs(f, d, n), d) { StuckForever(f, d, n); }
    } else {
      NftTwoRuns(f, d);
    }
  }
}
