/** The circuit breaker and its per-domain manager (circuit_breaker.py). */
module CircuitBreakers {
  import opened Collections

  datatype Mode = Closed | Open | HalfOpen

  datatype Config = Config(threshold: nat, recovery: real, limit: nat) {
    /** What the constructor checks. */
    predicate Ok() {
      threshold >= 1 && recovery > 0.0 && limit >= 1
    }
  }

  datatype State = State(mode: Mode, failures: nat, lastFailure: real, successes: nat, start: real, permits: nat)

  const FRESH: State := State(Closed, 0, 0.0, 0, 0.0, 0)

  /** `can_execute` reads the clock up to twice. */
  datatype Event = Ask(now: real, later: real) | Success | Failure(now: real)

  function Step(c: Config, s: State, e: Event): State {
    match e
    case Ask(now, later) =>
      if s.mode == Open && now - s.lastFailure >= c.recovery then
        s.(mode := HalfOpen, successes := 0, permits := 1, start := later)
      else if s.mode == HalfOpen && now - s.start >= c.recovery then
        s.(mode := Open, successes := 0, permits := 0)
      else if s.mode == HalfOpen && s.permits < c.limit then s.(permits := s.permits + 1)
      else s
    case Success =>
      if s.mode == HalfOpen then
        if s.successes + 1 >= c.limit then s.(mode := Closed, failures := 0, successes := 0, permits := 0)
        else s.(successes := s.successes + 1)
      else if s.mode == Closed then s.(failures := if s.failures == 0 then 0 else s.failures - 1)
      else s
    case Failure(now) =>
      if s.mode == HalfOpen then s.(mode := Open, lastFailure := now, successes := 0, permits := 0)
      else if s.mode == Closed then
        s.(mode := if s.failures + 1 >= c.threshold then Open
            else Closed, failures := s.failures + 1, lastFailure := now)
      else s.(lastFailure := now)
  }

  /** The answer of `can_execute` in a state. */
  predicate Admits(c: Config, s: State, now: real) {
    match s.mode
    case Closed => true
    case Open => now - s.lastFailure >= c.recovery
    case HalfOpen => now - s.start < c.recovery && s.permits < c.limit
  }

  function Run(c: Config, events: seq<Event>): State {
    if events == [] then FRESH else Step(c, Run(c, events[..|events| - 1]), events[|events| - 1])
  }

  // ------------------------------------------------------------------ invariant

  predicate Inv(c: Config, s: State) {
    && (s.mode == Closed ==> s.failures < c.threshold)
    && (s.mode != Closed ==> s.failures == c.threshold)
    && (s.mode == HalfOpen ==>
          1 <= s.permits <= c.limit && s.successes < c.limit && s.start >= s.lastFailure + c.recovery)
    && (s.mode != HalfOpen ==> s.permits == 0 && s.successes == 0)
  }

  predicate ClockOk(e: Event) {
    e.Ask? ==> e.now <= e.later
  }

  lemma {:induction false} RunKeepsInv(c: Config, events: seq<Event>)
    requires c.Ok() && forall e | e in events :: ClockOk(e)
    ensures Inv(c, Run(c, events))
    decreases |events|
  {
    if events != [] {
      var n := |events| - 1;
      RunKeepsInv(c, events[..n]);
      assert events[n] in events;
    }
  }

  // -------------------------------------------------------- when the breaker trips

  /** Failures minus successes. */
  function Net(events: seq<Event>): int {
    if events == [] then 0 else
    Net(events[..|events| - 1]) + Weight(events[|events| - 1])
  }

  function Weight(e: Event): int {
    match e
    case Ask(_, _) => 0
    case Success => -1
    case Failure(_) => 1
  }

  predicate StaysClosed(c: Config, events: seq<Event>) {
    forall n | 0 <= n <= |events| :: Run(c, events[..n]).mode == Closed
  }

  lemma ClosedBefore(c: Config, events: seq<Event>)
    requires StaysClosed(c, events)
    ensures Run(c, events).mode == Closed
    ensures events != [] ==> StaysClosed(c, events[..|events| - 1])
  {
    assert events[..|events|] == events;
    if events != [] {
      var before := events[..|events| - 1];
      assert forall k | 0 <= k <= |before| :: before[..k] == events[..k];
    }
  }

  lemma NetOfSuffix(events: seq<Event>, i: nat)
    requires i < |events|
    ensures Net(events[i..]) == Net(events[..|events| - 1][i..]) + Weight(events[|events| - 1])
  {
    assert events[i..][..|events| - 1 - i] == events[..|events| - 1][i..];
  }

  /** What one event does to a counter that stays closed. */
  lemma ClosedCount(c: Config, events: seq<Event>)
    requires c.Ok() && StaysClosed(c, events) && events != []
    ensures var n := Run(c, events[..|events| - 1]).failures + Weight(events[|events| - 1]);
            Run(c, events).failures == if n < 0 then 0 else n
  {
    ClosedBefore(c, events);
    ClosedBefore(c, events[..|events| - 1]);
  }

  /** While it is closed the counter is the worst balance of failures over
      successes among the periods ending now. */
  lemma {:induction false} CountIsWorstBalance(c: Config, events: seq<Event>)
    requires c.Ok() && StaysClosed(c, events)
    ensures forall i | 0 <= i <= |events| :: Net(events[i..]) <= Run(c, events).failures
    ensures exists i | 0 <= i <= |events| :: Net(events[i..]) == Run(c, events).failures
    decreases |events|
  {
    assert Net(events[|events|..]) == 0;
    if events != [] {
      var before, last := events[..|events| - 1], events[|events| - 1];
      ClosedBefore(c, events);
      ClosedCount(c, events);
      CountIsWorstBalance(c, before);
      hide Run, StaysClosed, Net;
      forall i | 0 <= i < |events| ensures Net(events[i..]) == Net(before[i..]) + Weight(last) {
        NetOfSuffix(events, i);
      }
      var i :| 0 <= i <= |before| && Net(before[i..]) == Run(c, before).failures;
      var best := if Net(before[i..]) + Weight(last) < 0 then |events| else i;
      assert Net(events[best..]) == Run(c, events).failures;
    }
  }

  predicate Calm(c: Config, events: seq<Event>) {
    forall i, j | 0 <= i <= j <= |events| :: Net(events[i..j]) < c.threshold
  }

  lemma ClosedCountBelowThreshold(c: Config, events: seq<Event>)
    requires c.Ok() && StaysClosed(c, events)
    ensures Run(c, events).failures < c.threshold
    decreases |events|
  {
    if events != [] {
      ClosedBefore(c, events);
      ClosedCountBelowThreshold(c, events[..|events| - 1]);
    }
  }

  lemma LastEventKeepsClosed(c: Config, events: seq<Event>)
    requires c.Ok() && events != [] && StaysClosed(c, events[..|events| - 1]) && Calm(c, events)
    ensures StaysClosed(c, events)
  {
    var before := events[..|events| - 1];
    CountIsWorstBalance(c, before);
    ClosedBefore(c, before);
    var i :| 0 <= i <= |before| && Net(before[i..]) == Run(c, before).failures;
    NetOfSuffix(events, i);
    assert events[i..|events|] == events[i..];
    assert Run(c, events).mode == Closed;
    forall k | 0 <= k <= |events| ensures Run(c, events[..k]).mode == Closed {
      assert events[..k] == if k == |events| then events else before[..k];
    }
  }

  lemma ClosedIsCalm(c: Config, events: seq<Event>)
    requires c.Ok() && StaysClosed(c, events)
    ensures Calm(c, events)
  {
    forall i, j | 0 <= i <= j <= |events| ensures Net(events[i..j]) < c.threshold {
      var before := events[..j];
      assert forall k | 0 <= k <= j :: before[..k] == events[..k];
      CountIsWorstBalance(c, before);
      ClosedCountBelowThreshold(c, before);
      assert events[i..j] == before[i..];
    }
  }

  lemma {:induction false} CalmStaysClosed(c: Config, events: seq<Event>)
    requires c.Ok() && Calm(c, events)
    ensures StaysClosed(c, events)
    decreases |events|
  {
    if events != [] {
      var before := events[..|events| - 1];
      assert forall i, j | 0 <= i <= j <= |before| :: before[i..j] == events[i..j];
      CalmStaysClosed(c, before);
      LastEventKeepsClosed(c, events);
    }
  }

  /** A fresh breaker opens exactly when, over some period, failures outnumber
      successes by the threshold. */
  lemma TripsExactlyOnStreaks(c: Config, events: seq<Event>)
    requires c.Ok()
    ensures StaysClosed(c, events) <==> Calm(c, events)
  {
    hide StaysClosed, Calm;
    if StaysClosed(c, events) {
      ClosedIsCalm(c, events);
    }
    if Calm(c, events) {
      CalmStaysClosed(c, events);
    }
  }

  // ------------------------------------------------ what a run says about the answers

  /** The time of the latest failure of a run, whatever mode it found. */
  function LatestFailure(events: seq<Event>): Option<real> {
    if events == [] then None else
    var last := events[|events| - 1];
    if last.Failure? then Some(last.now) else LatestFailure(events[..|events| - 1])
  }

  lemma {:induction false} FieldIsLatestFailure(c: Config, events: seq<Event>)
    requires c.Ok()
    ensures Run(c, events).mode != Closed ==> LatestFailure(events).Some?
    ensures LatestFailure(events).Some? ==> Run(c, events).lastFailure == LatestFailure(events).value
    decreases |events|
  {
    if events != [] {
      FieldIsLatestFailure(c, events[..|events| - 1]);
    }
  }

  /** A question that finds the breaker open is admitted exactly when the recovery
      time has passed since the latest failure of the run. */
  lemma OpenAdmitsExactlyAfterRecovery(c: Config, events: seq<Event>, now: real)
    requires c.Ok() && Run(c, events).mode == Open
    ensures LatestFailure(events).Some?
    ensures Admits(c, Run(c, events), now) <==> now >= LatestFailure(events).value + c.recovery
  {
    FieldIsLatestFailure(c, events);
  }

  function Asks(events: seq<Event>): (n: nat)
    ensures n <= |events|
  {
    if events == [] then 0 else
    Asks(events[..|events| - 1]) + if events[|events| - 1].Ask? then 1 else 0
  }

  function Successes(events: seq<Event>): (n: nat)
    ensures n <= |events|
  {
    if events == [] then 0 else
    Successes(events[..|events| - 1]) + if events[|events| - 1].Success? then 1 else 0
  }

  /** The question at `i` was admitted while the breaker was open, and since then
      there was no failure, and there were fewer than `limit` successes. */
  predicate BeganAt(c: Config, events: seq<Event>, i: nat) {
    && i < |events| && events[i].Ask?
    && Run(c, events[..i]).mode == Open && Admits(c, Run(c, events[..i]), events[i].now)
    && (forall j | i <= j < |events| :: !events[j].Failure?) && Successes(events[i..]) < c.limit
  }

  lemma {:induction false} FieldsCountPeriod(c: Config, events: seq<Event>) returns (i: nat)
    requires c.Ok() && Run(c, events).mode == HalfOpen
    ensures BeganAt(c, events, i)
    ensures var s := Run(c, events);
            && s.start == events[i].later && s.permits == Min(c.limit, Asks(events[i..]))
            && s.successes == Successes(events[i..])
    decreases |events|
  {
    var n := |events| - 1;
    var before := events[..n];
    if Run(c, before).mode == HalfOpen {
      hide Admits;
      i := FieldsCountPeriod(c, before);
      assert events[..i] == before[..i] && events[i..][..n - i] == before[i..];
    } else {
      i := n;
      assert events[n..] == [events[n]] && [events[n]][..0] == [];
    }
  }

  /** A question that finds the breaker half-open is admitted exactly when the
      recovery time has not passed since the period began, and fewer than `limit`
      questions were put in it. */
  lemma HalfOpenAdmitsExactlyWithinPeriod(c: Config, events: seq<Event>, now: real) returns (i: nat)
    requires c.Ok() && Run(c, events).mode == HalfOpen
    ensures BeganAt(c, events, i)
    ensures Admits(c, Run(c, events), now) <==> now < events[i].later + c.recovery && Asks(events[i..]) < c.limit
  {
    i := FieldsCountPeriod(c, events);
  }

  /** Times never go back. */
  predicate Ordered(events: seq<Event>) {
    forall i, j | 0 <= i < j < |events| && !events[i].Success? && !events[j].Success? ::
      events[i].now <= events[j].now
  }

  /** From a failure that leaves the breaker open - having opened or reopened it, or
      found it open - no question is admitted for the recovery time. */
  lemma NobodyAdmittedDuringRecovery(c: Config, events: seq<Event>, i: nat, j: nat)
    requires c.Ok() && Ordered(events) && i < j < |events| && events[i].Failure? && events[j].Ask?
    requires Run(c, events[..i + 1]).mode == Open && events[j].now < events[i].now + c.recovery
    ensures !Admits(c, Run(c, events[..j]), events[j].now)
  {
    StaysOpen(c, events, i, j, events[j].now);
  }

  lemma {:induction false} StaysOpen(c: Config, events: seq<Event>, i: nat, k: nat, t: real)
    requires c.Ok() && i < k < |events| && events[i].Failure? && t < events[i].now + c.recovery
    requires forall m | i < m < k && events[m].Ask? :: events[m].now <= t
    requires forall m | i < m < k && events[m].Failure? :: events[i].now <= events[m].now
    requires Run(c, events[..i + 1]).mode == Open
    ensures var s := Run(c, events[..k]);
            s.mode == Open && s.lastFailure >= events[i].now
    decreases k
  {
    var before := events[..k];
    assert before[..k - 1] == events[..k - 1] && before[k - 1] == events[k - 1];
    if k > i + 1 {
      StaysOpen(c, events, i, k - 1, t);
    }
  }

  /** After it has closed again, a breaker trips as a fresh one does. */
  lemma {:induction false} ReclosedIsFresh(c: Config, before: seq<Event>, events: seq<Event>)
    requires c.Ok() && before != [] && Run(c, before).mode == Closed && Run(c, before[..|before| - 1]).mode != Closed
    requires events == [] || StaysClosed(c, events[..|events| - 1])
    ensures Run(c, before + events).mode == Run(c, events).mode
    ensures Run(c, before + events).failures == Run(c, events).failures
    decreases |events|
  {
    if events == [] {
      assert before + events == before;
    } else {
      var n := |events| - 1;
      ClosedBefore(c, events[..n]);
      ReclosedIsFresh(c, before, events[..n]);
      RunOn(c, before, events);
      ClosedAlike(c, Run(c, before + events[..n]), Run(c, events[..n]), events[n]);
      hide Step, StaysClosed;
    }
  }

  lemma RunOn(c: Config, before: seq<Event>, events: seq<Event>)
    requires events != []
    ensures Run(c, before + events) == Step(c, Run(c, before + events[..|events| - 1]), events[|events| - 1])
  {
    hide Step;
    assert (before + events)[..|before + events| - 1] == before + events[..|events| - 1];
  }

  lemma ClosedAlike(c: Config, s: State, t: State, e: Event)
    requires s.mode == t.mode == Closed && s.failures == t.failures
    ensures Step(c, s, e).mode == Step(c, t, e).mode && Step(c, s, e).failures == Step(c, t, e).failures
  {}

  // ------------------------------------------------------------------- recovery

  predicate Before(e: Event, t: real) {
    match e
    case Ask(now, later) => now <= later <= t
    case Success => true
    case Failure(now) => now <= t
  }

  lemma {:induction false} ClocksBound(c: Config, events: seq<Event>, t: real)
    requires t >= 0.0 && forall e | e in events :: Before(e, t)
    ensures Run(c, events).lastFailure <= t && Run(c, events).start <= t
    decreases |events|
  {
    if events != [] {
      ClocksBound(c, events[..|events| - 1], t);
      assert events[|events| - 1] in events;
    }
  }

  /** Once nothing has happened for `recovery`, two calls suffice to be admitted. */
  lemma RecoversInTwoCalls(c: Config, events: seq<Event>, t: real, first: Event, second: real)
    requires c.Ok() && t >= 0.0 && forall e | e in events :: Before(e, t)
    requires first.Ask? && first.now >= t + c.recovery && second >= t + c.recovery
    ensures Admits(c, Run(c, events), first.now) || Admits(c, Step(c, Run(c, events), first), second)
  {
    ClocksBound(c, events, t);
  }

  /** One call suffices exactly when the breaker was not left half-open: a
      half-open period that was abandoned is only closed by the first call after it. */
  lemma OneCallSufficesUnlessHalfOpen(c: Config, events: seq<Event>, t: real, now: real)
    requires c.Ok() && t >= 0.0 && (forall e | e in events :: Before(e, t)) && now >= t + c.recovery
    ensures Admits(c, Run(c, events), now) <==> Run(c, events).mode != HalfOpen
  {
    ClocksBound(c, events, t);
  }

  /** A run that leaves the breaker half-open, so that one call does not suffice. */
  lemma OneCallMayBeRefused(c: Config) returns (events: seq<Event>)
    requires c.Ok()
    ensures (forall e | e in events :: Before(e, c.recovery)) && Run(c, events).mode == HalfOpen
    ensures forall now | now >= 2.0 * c.recovery :: !Admits(c, Run(c, events), now)
  {
    events := Failures(c, c.threshold) + [Ask(c.recovery, c.recovery)];
    assert events[..c.threshold] == Failures(c, c.threshold);
    FailuresOpen(c, c.threshold);
    forall now | now >= 2.0 * c.recovery ensures !Admits(c, Run(c, events), now) {
      OneCallSufficesUnlessHalfOpen(c, events, c.recovery, now);
    }
  }

  function Failures(c: Config, n: nat): (events: seq<Event>)
    ensures |events| == n && forall i | 0 <= i < n :: events[i] == Failure(0.0)
  {
    seq(n, _ => Failure(0.0))
  }

  lemma {:induction false} FailuresOpen(c: Config, n: nat)
    requires c.Ok() && n <= c.threshold
    ensures Run(c, Failures(c, n)) == FRESH.(mode := if n == c.threshold then Open else Closed, failures := n)
  {
    if n > 0 {
      FailuresOpen(c, n - 1);
      assert Failures(c, n)[..n - 1] == Failures(c, n - 1);
    }
  }

  /** Asks that a half-open period admits: never more than the limit. */
  function Admitted(c: Config, s: State, asks: seq<Event>): nat
    decreases |asks|
  {
    if asks == [] then 0 else
    var rest := Admitted(c, Step(c, s, asks[0]), asks[1..]);
    if asks[0].Ask? && Admits(c, s, asks[0].now) then 1 + rest else rest
  }

  predicate StaysHalfOpen(c: Config, s: State, events: seq<Event>)
    decreases |events|
  {
    s.mode == HalfOpen && (events == [] || StaysHalfOpen(c, Step(c, s, events[0]), events[1..]))
  }

  lemma {:induction false} HalfOpenAdmitsAtMostLimit(c: Config, s: State, events: seq<Event>)
    requires c.Ok() && Inv(c, s) && StaysHalfOpen(c, s, events) && forall e | e in events :: ClockOk(e)
    ensures s.permits + Admitted(c, s, events) <= c.limit
    decreases |events|
  {
    if events != [] {
      assert events[0] in events;
      HalfOpenAdmitsAtMostLimit(c, Step(c, s, events[0]), events[1..]);
    }
  }

  // ------------------------------------------------------------- the two classes

  class CircuitBreaker {
    const config: Config
    var mode: Mode
    var failures: nat
    var lastFailure: real
    var successes: nat
    var start: real
    var permits: nat

    ghost function View(): State
      reads this
    {
      State(mode, failures, lastFailure, successes, start, permits)
    }

    constructor (config: Config)
      requires config.Ok()
      ensures this.config == config && View() == FRESH
    {
      this.config := config;
      mode, failures, lastFailure, successes, start, permits := Closed, 0, 0.0, 0, 0.0, 0;
    }

    method CanExecute(now: real, later: real) returns (admitted: bool)
      modifies this
      ensures admitted == Admits(config, old(View()), now)
      ensures View() == Step(config, old(View()), Ask(now, later))
    {
      match mode
      case Closed => return true;
      case Open =>
        if now - lastFailure >= config.recovery {
          mode := HalfOpen;
          successes := 0;
          permits := 1;
          start := later;
          return true;
        }
        return false;
      case HalfOpen =>
        if now - start >= config.recovery {
          mode := Open;
          successes := 0;
          permits := 0;
          return false;
        }
        if permits < config.limit {
          permits := permits + 1;
          return true;
        }
        return false;
    }

    method RecordSuccess()
      modifies this
      ensures View() == Step(config, old(View()), Success)
    {
      if mode == HalfOpen {
        successes := successes + 1;
        if successes >= config.limit {
          mode := Closed;
          failures := 0;
          successes := 0;
          permits := 0;
        }
      } else if mode == Closed {
        failures := if failures > 0 then failures - 1 else 0;
      }
    }

    method RecordFailure(now: real)
      modifies this
      ensures View() == Step(config, old(View()), Failure(now))
    {
      lastFailure := now;
      if mode == HalfOpen {
        mode := Open;
        successes := 0;
        permits := 0;
      } else if mode == Closed {
        failures := failures + 1;
        if failures >= config.threshold {
          mode := Open;
        }
      }
    }
  }

  type Domain = string

  datatype ManagerEvent = On(domain: Domain, event: Event) | Reset(domain: Domain) | ResetAll

  function Lookup(states: map<Domain, State>, d: Domain): State {
    if d in states then states[d] else FRESH
  }

  function ManagerStep(c: Config, states: map<Domain, State>, e: ManagerEvent): map<Domain, State> {
    match e
    case On(d, event) => states[d := Step(c, Lookup(states, d), event)]
    case Reset(d) => states - {d}
    case ResetAll => map[]
  }

  function ManagerRun(c: Config, events: seq<ManagerEvent>): map<Domain, State> {
    if events == [] then map[] else ManagerStep(c, ManagerRun(c, events[..|events| - 1]), events[|events| - 1])
  }

  /** What a lone breaker for one domain would have seen since its last reset. */
  function Project(events: seq<ManagerEvent>, d: Domain): seq<Event> {
    if events == [] then [] else
    var before, last := Project(events[..|events| - 1], d), events[|events| - 1];
    match last
    case On(domain, event) => if domain == d then before + [event] else before
    case Reset(domain) => if domain == d then [] else before
    case ResetAll => []
  }

  /** The manager keeps every domain exactly as a breaker of its own would be. */
  lemma {:induction false} DomainsAreIndependent(c: Config, events: seq<ManagerEvent>, d: Domain)
    ensures Lookup(ManagerRun(c, events), d) == Run(c, Project(events, d))
    decreases |events|
  {
    if events != [] {
      var before := events[..|events| - 1];
      DomainsAreIndependent(c, before, d);
      var p := Project(before, d);
      assert forall e :: (p + [e])[..|p|] == p;
    }
  }

  /** The time of a domain's latest failure since its last reset. */
  function LatestFailureOf(events: seq<ManagerEvent>, d: Domain): Option<real> {
    if events == [] then None else
    var before := LatestFailureOf(events[..|events| - 1], d);
    match events[|events| - 1]
    case On(domain, Failure(now)) => if domain == d then Some(now) else before
    case On(_, _) => before
    case Reset(domain) => if domain == d then None else before
    case ResetAll => None
  }

  lemma {:induction false} LatestFailureProjects(events: seq<ManagerEvent>, d: Domain)
    ensures LatestFailure(Project(events, d)) == LatestFailureOf(events, d)
    decreases |events|
  {
    if events != [] {
      LatestFailureProjects(events[..|events| - 1], d);
      var p := Project(events[..|events| - 1], d);
      assert forall e :: (p + [e])[..|p|] == p;
    }
  }

  /** A domain found open is asked successfully exactly when the recovery time has
      passed since its own latest failure. */
  lemma ManagerAdmitsExactlyAfterRecovery(c: Config, events: seq<ManagerEvent>, d: Domain, now: real)
    requires c.Ok() && Lookup(ManagerRun(c, events), d).mode == Open
    ensures LatestFailureOf(events, d).Some?
    ensures Admits(c, Lookup(ManagerRun(c, events), d), now) <==> now >= LatestFailureOf(events, d).value + c.recovery
  {
    hide Admits, Run;
    DomainsAreIndependent(c, events, d);
    LatestFailureProjects(events, d);
    OpenAdmitsExactlyAfterRecovery(c, Project(events, d), now);
  }

  class CircuitBreakerManager {
    const config: Config
    var breakers: map<Domain, CircuitBreaker>

    ghost predicate Valid()
      reads this, breakers.Values
    {
      && config.Ok()
      && (forall d | d in breakers :: breakers[d].config == config)
      && (forall d, e | d in breakers && e in breakers && d != e :: breakers[d] != breakers[e])
    }

    ghost function View(): map<Domain, State>
      reads this, breakers.Values
    {
      map d | d in breakers :: breakers[d].View()
    }

    constructor (config: Config)
      requires config.Ok()
      ensures Valid() && View() == map[] && this.config == config
    {
      this.config := config;
      breakers := map[];
    }

    /** `get_breaker`: created on first use. */
    method GetBreaker(domain: Domain) returns (breaker: CircuitBreaker)
      requires Valid()
      modifies this
      ensures Valid() && domain in breakers && breakers[domain] == breaker
      ensures old(breakers) == if domain in old(breakers) then breakers else breakers - {domain}
      ensures breaker.View() == Lookup(old(View()), domain)
      ensures View() == old(View())[domain := breaker.View()]
      ensures domain !in old(breakers) ==> fresh(breaker)
    {
      if domain !in breakers {
        breaker := new CircuitBreaker(config);
        breakers := breakers[domain := breaker];
      }
      breaker := breakers[domain];
    }

    method CanExecute(domain: Domain, now: real, later: real) returns (admitted: bool)
      requires Valid()
      modifies this, breakers.Values
      ensures Valid() && admitted == Admits(config, Lookup(old(View()), domain), now)
      ensures View() == ManagerStep(config, old(View()), On(domain, Ask(now, later)))
    {
      var breaker := GetBreaker(domain);
      admitted := breaker.CanExecute(now, later);
    }

    method RecordSuccess(domain: Domain)
      requires Valid()
      modifies this, breakers.Values
      ensures Valid() && View() == ManagerStep(config, old(View()), On(domain, Success))
    {
      var breaker := GetBreaker(domain);
      breaker.RecordSuccess();
    }

    method RecordFailure(domain: Domain, now: real)
      requires Valid()
      modifies this, breakers.Values
      ensures Valid() && View() == ManagerStep(config, old(View()), On(domain, Failure(now)))
    {
      var breaker := GetBreaker(domain);
      breaker.RecordFailure(now);
    }

    method ResetDomain(domain: Domain)
      requires Valid()
      modifies this
      ensures Valid() && View() == ManagerStep(config, old(View()), Reset(domain))
    {
      if domain in breakers {
        breakers := breakers - {domain};
      }
    }

    method ResetAllDomains()
      requires Valid()
      modifies this
      ensures Valid() && View() == ManagerStep(config, old(View()), ResetAll)
    {
      breakers := map[];
    }
  }
}
