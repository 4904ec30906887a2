/** Requests against a half-open circuit breaker (connection.py,
    circuit_breaker.py): a request asks the breaker for every URL of its redirect
    chain and reports one outcome, so a success costs as many permits of the
    period as the request had URLs left to ask for when it began. */
module HalfOpenChains {
  import opened Collections
  import opened CircuitBreakers
  import opened RequestLoop

  // ------------------------------------------------ one request on a real breaker

  /** The domain's breaker is half-open after each of these numbers of events. */
  ghost predicate HalfOpenFor(b: SharedBreaker, d: Domain, from: nat, until: nat)
    reads b
  {
    until <= |b.trace| && forall k | from <= k <= until :: b.StateAt(k, d).mode == HalfOpen
  }

  lemma StateAtNext(b: SharedBreaker, d: Domain, k: nat)
    requires k < |b.trace|
    ensures b.StateAt(k + 1, d) == match b.trace[k]
                                   case On(domain, event) =>
                                     if domain == d then Step(b.config, b.StateAt(k, d), event) else b.StateAt(k, d)
                                   case Reset(domain) => if domain == d then FRESH else b.StateAt(k, d)
                                   case ResetAll => FRESH
  {
    hide Step;
    assert b.trace[..k + 1] == b.trace[..k] + [b.trace[k]];
    RunOne(b.config, b.trace[..k], b.trace[k]);
  }

  /** An event that leaves the breaker half-open takes one permit if it is an
      admitted question, and none otherwise. */
  lemma EventTakesPermit(b: SharedBreaker, d: Domain, k: nat)
    requires HalfOpenFor(b, d, k, k + 1)
    ensures var e, s := b.trace[k], b.StateAt(k, d);
            b.StateAt(k + 1, d).permits
            == s.permits + if e.On? && e.domain == d && e.event.Ask? && Admits(b.config, s, e.event.now) then 1 else 0
  {
    StateAtNext(b, d, k);
    hide SharedBreaker.StateAt;
  }

  lemma {:induction false} PermitsOnlyGrow(b: SharedBreaker, d: Domain, from: nat, until: nat)
    requires from <= until && HalfOpenFor(b, d, from, until)
    ensures b.StateAt(from, d).permits <= b.StateAt(until, d).permits
    decreases until
  {
    if from < until {
      PermitsOnlyGrow(b, d, from, until - 1);
      EventTakesPermit(b, d, until - 1);
    }
  }

  lemma {:induction false} PermitsWithinLimit(b: SharedBreaker, d: Domain, k: nat)
    requires b.config.Ok() && k <= |b.trace|
    ensures b.StateAt(k, d).permits <= b.config.limit
    decreases k
  {
    if k > 0 {
      PermitsWithinLimit(b, d, k - 1);
      StateAtNext(b, d, k - 1);
    }
  }

  /** How many URLs of the chain are on this domain. */
  function UrlsOn(domain: Url -> Domain, d: Domain, chain: seq<Url>): (n: nat)
    ensures n <= |chain|
    ensures n == |chain| <==> forall url | url in chain :: domain(url) == d
  {
    if chain == [] then 0 else
    UrlsOn(domain, d, chain[1..]) + if domain(chain[0]) == d then 1 else 0
  }

  /** From this thread's `n`-th call on, `asks` for the chain and then one more call. */
  ghost predicate AskedAlong(b: SharedBreaker, domain: Url -> Domain, n: nat, chain: seq<Url>)
    reads b
  {
    && n + |chain| < |b.own|
    && forall i | n <= i < n + |chain| ::
         b.own[i].Asked? && b.own[i].domain == domain(chain[i - n]) && b.own[i].admitted
  }

  /** Every URL on the domain takes a permit, whatever other threads do between. */
  lemma {:induction false} AsksTakePermits(b: SharedBreaker, domain: Url -> Domain, d: Domain, n: nat, chain: seq<Url>)
    requires b.Valid() && AskedAlong(b, domain, n, chain)
    requires HalfOpenFor(b, d, b.at[n], b.at[n + |chain|])
    ensures b.StateAt(b.at[n], d).permits + UrlsOn(domain, d, chain) <= b.StateAt(b.at[n + |chain|], d).permits
    decreases |chain|
  {
    hide SharedBreaker.StateAt, Admits;
    if chain != [] {
      var k := b.at[n];
      assert b.Placed(n) && k < b.at[n + 1] && b.Placed(n + |chain|);
      assert b.own[n].domain == domain(chain[0]);
      assert AskedAlong(b, domain, n + 1, chain[1..]);
      EventTakesPermit(b, d, k);
      PermitsOnlyGrow(b, d, k + 1, b.at[n + 1]);
      AsksTakePermits(b, domain, d, n + 1, chain[1..]);
    }
  }

  lemma PermitsTaken(b: SharedBreaker, domain: Url -> Domain, d: Domain, n: nat, chain: seq<Url>, k: nat, from: nat)
    requires b.Valid() && b.config.Ok() && AskedAlong(b, domain, n, chain)
    requires k <= |chain| && from <= b.at[n + k] && HalfOpenFor(b, d, from, b.at[n + |chain|])
    ensures b.StateAt(from, d).permits + UrlsOn(domain, d, chain[k..])
            <= b.StateAt(b.at[n + |chain|], d).permits <= b.config.limit
  {
    hide SharedBreaker.StateAt, SharedBreaker.Placed;
    assert AskedAlong(b, domain, n + k, chain[k..]);
    PermitsOnlyGrow(b, d, from, b.at[n + k]);
    AsksTakePermits(b, domain, d, n + k, chain[k..]);
    PermitsWithinLimit(b, d, b.at[n + |chain|]);
  }

  /** A request was answered while the domain stayed half-open since event `from`,
      when it had `chain[k..]` still to ask for: each of these URLs that is on the
      domain took a permit of the period, whatever other threads did meanwhile, and
      the request reported one success, to the domain of its last URL. */
  lemma AnsweredRequestTakesPermits(conn: Connection, before: seq<BreakerCall>, chain: seq<Url>,
                                    asks: seq<BreakerCall>, r: Result, d: Domain, k: nat, from: nat)
    requires conn.breaker != null && conn.BreakerOk() && conn.breaker.config.Ok() && r.Returned?
    requires conn.AsksFor(asks, chain, r) && conn.TellsAfter(before + asks, conn.Own(), r, chain[|chain| - 1])
    requires k <= |chain| && |before| + |chain| < |conn.breaker.at| && from <= conn.breaker.at[|before| + k]
    requires HalfOpenFor(conn.breaker, d, from, conn.breaker.at[|before| + |chain|])
    ensures var b, told := conn.breaker, |before| + |chain|;
            && b.StateAt(from, d).permits + UrlsOn(conn.domain, d, chain[k..])
               <= b.StateAt(b.at[told], d).permits <= b.config.limit
            && |b.own| == told + 1 && b.at[told] < |b.trace|
            && b.trace[b.at[told]] == On(conn.domain(chain[|chain| - 1]), Success)
  {
    var b, n := conn.breaker, |before|;
    conn.AnsweredAsks(asks, chain, r);
    assert b.own[..n + |chain|] == before + asks;
    assert forall i | n <= i < n + |chain| :: b.own[i] == (before + asks)[i] == asks[i - n];
    hide SharedBreaker.StateAt, Admits;
    PermitsTaken(b, conn.domain, d, n, chain, k, from);
    assert b.Placed(n + |chain|);
  }

  // ------------------------------------------- a half-open period and its requests

  /** A request is answered once all the URLs it had left were admitted. Requests
      interleave. A question that is refused ends its request and changes nothing,
      so it is no event; a failure and a timeout end the period without closing the
      breaker. */
  datatype Probe = Hop(request: nat, now: real, later: real) | Answer(request: nat)

  /** The breaker, the permits each request took in this period, and the requests answered. */
  datatype Period = Period(state: State, taken: map<nat, int>, answered: set<nat>)

  function Taken(p: Period, r: nat): int {
    if r in p.taken then p.taken[r] else 0
  }

  /** `left` says how many URLs on this domain each request still has to ask for
      when the period begins: none for one that was admitted to its last URL before,
      its whole chain for one that starts later. */
  predicate Enabled(c: Config, left: nat -> nat, p: Period, e: Probe) {
    p.state.mode == HalfOpen && e.request !in p.answered
    && match e
       case Hop(r, now, later) => Taken(p, r) < left(r) && now - p.state.start < c.recovery && Admits(c, p.state, now)
       case Answer(r) => Taken(p, r) == left(r)
  }

  function Apply(c: Config, p: Period, e: Probe): Period {
    match e
    case Hop(r, now, later) => Period(Step(c, p.state, Ask(now, later)), p.taken[r := Taken(p, r) + 1], p.answered)
    case Answer(r) => Period(Step(c, p.state, Success), p.taken, p.answered + {r})
  }

  /** A question of `r` opens the period. */
  function Opened(c: Config, s: State, r: nat, now: real, later: real): Period {
    Period(Step(c, s, Ask(now, later)), map[r := 1], {})
  }

  predicate Opens(c: Config, left: nat -> nat, s: State, r: nat, now: real) {
    c.Ok() && s.mode == Open && Admits(c, s, now) && left(r) >= 1
  }

  predicate Runs(c: Config, left: nat -> nat, p: Period, es: seq<Probe>)
    decreases |es|
  {
    es == [] || (Enabled(c, left, p, es[0]) && Runs(c, left, Apply(c, p, es[0]), es[1..]))
  }

  function After(c: Config, p: Period, es: seq<Probe>): Period
    decreases |es|
  {
    if es == [] then p else After(c, Apply(c, p, es[0]), es[1..])
  }

  /** Permits are the questions of the period's requests, successes its answers. */
  ghost predicate PeriodOk(c: Config, left: nat -> nat, p: Period) {
    && c.Ok() && p.state.permits == Sum(p.taken) && p.state.permits <= c.limit
    && p.state.successes == |p.answered| < c.limit
    && (forall r | r in p.taken :: 1 <= p.taken[r] <= left(r))
    && (forall r | r in p.answered :: Taken(p, r) == left(r))
  }

  lemma StepKeepsPeriod(c: Config, left: nat -> nat, p: Period, e: Probe)
    requires PeriodOk(c, left, p) && Enabled(c, left, p, e)
    ensures Apply(c, p, e).state.mode == HalfOpen ==> PeriodOk(c, left, Apply(c, p, e))
    ensures Apply(c, p, e).state.mode != HalfOpen ==>
              e.Answer? && Apply(c, p, e).state.mode == Closed && |p.answered + {e.request}| == c.limit
  {
    hide Sum;
    if e.Hop? {
      SumUpdate(p.taken, e.request, Taken(p, e.request) + 1);
    }
  }

  // --------------------------------------------------------- when a period can close

  ghost predicate CanClose(c: Config, left: nat -> nat, p: Period) {
    exists es :: Runs(c, left, p, es) && After(c, p, es).state.mode == Closed
  }

  /** The URLs that these requests have left, together. */
  ghost function Cost(left: nat -> nat, s: set<nat>): int {
    Sum(Costs(left, s))
  }

  ghost function Costs(left: nat -> nat, s: set<nat>): map<nat, int> {
    map r | r in s :: left(r)
  }

  /** Some `limit` requests can all be answered for the permits that the period has,
      one of which went to `first`. */
  ghost predicate Affordable(c: Config, left: nat -> nat, first: nat) {
    exists s: set<nat> :: Pays(c, left, first, s)
  }

  ghost predicate Pays(c: Config, left: nat -> nat, first: nat, s: set<nat>) {
    |s| == c.limit && Cost(left, s) + (if first in s then 0 else 1) <= c.limit
  }

  /** The requests answered, and the one that opened the period, paid with its permits. */
  lemma AnsweredPaid(c: Config, left: nat -> nat, p: Period, first: nat, s: set<nat>)
    requires PeriodOk(c, left, p) && first in p.taken && |s| == c.limit
    requires forall r | r in s :: Taken(p, r) == left(r)
    ensures Affordable(c, left, first)
  {
    hide Sum;
    var paid := map r | r in s + {first} :: Taken(p, r);
    SumDominated(paid, p.taken);
    if first in s {
      assert paid == Costs(left, s);
    } else {
      SumRemove(paid, first);
      assert paid - {first} == Costs(left, s);
    }
    assert Pays(c, left, first, s);
  }

  lemma {:induction false} ClosingIsPaid(c: Config, left: nat -> nat, p: Period, first: nat, es: seq<Probe>)
    requires p.state.mode == HalfOpen && PeriodOk(c, left, p) && first in p.taken
    requires Runs(c, left, p, es) && After(c, p, es).state.mode == Closed
    ensures Affordable(c, left, first)
    decreases |es|
  {
    hide Sum, Affordable;
    if es != [] {
      var p', e := Apply(c, p, es[0]), es[0];
      StepKeepsPeriod(c, left, p, e);
      if p'.state.mode == HalfOpen {
        ClosingIsPaid(c, left, p', first, es[1..]);
      } else {
        AnsweredPaid(c, left, p, first, p.answered + {e.request});
      }
    }
  }

  lemma Continue(c: Config, left: nat -> nat, p: Period, e: Probe)
    requires Enabled(c, left, p, e) && CanClose(c, left, Apply(c, p, e))
    ensures CanClose(c, left, p)
  {
    hide Enabled, Apply;
    var es :| Runs(c, left, Apply(c, p, e), es) && After(c, Apply(c, p, e), es).state.mode == Closed;
    assert ([e] + es)[0] == e && ([e] + es)[1..] == es;
    assert Runs(c, left, p, [e] + es);
  }

  /** The URLs that these requests have left to ask for now. */
  ghost function Due(left: nat -> nat, p: Period, todo: set<nat>): map<nat, int> {
    map r | r in todo :: left(r) - Taken(p, r)
  }

  /** Requests that can be paid for close the period, one question or answer at a time. */
  lemma {:induction false} PaidClose(c: Config, left: nat -> nat, p: Period, todo: set<nat>)
    requires p.state.mode == HalfOpen && PeriodOk(c, left, p)
    requires todo !! p.answered && |p.answered| + |todo| == c.limit
    requires p.state.permits + Sum(Due(left, p, todo)) <= c.limit
    ensures CanClose(c, left, p)
    decreases c.limit - p.state.permits, |todo|
  {
    hide Sum, CanClose;
    var r :| r in todo;
    var due := Due(left, p, todo);
    SumNonNegative(due);
    if due[r] > 0 {
      var hop := Hop(r, p.state.start, p.state.start);
      var p' := Apply(c, p, hop);
      StepKeepsPeriod(c, left, p, hop);
      SumUpdate(due, r, due[r] - 1);
      assert Due(left, p', todo) == due[r := due[r] - 1];
      PaidClose(c, left, p', todo);
      Continue(c, left, p, hop);
    } else {
      AnswerPaid(c, left, p, todo, r);
    }
  }

  lemma AnswerPaid(c: Config, left: nat -> nat, p: Period, todo: set<nat>, r: nat)
    requires p.state.mode == HalfOpen && PeriodOk(c, left, p)
    requires todo !! p.answered && |p.answered| + |todo| == c.limit
    requires p.state.permits + Sum(Due(left, p, todo)) <= c.limit
    requires r in todo && Taken(p, r) == left(r)
    ensures CanClose(c, left, p)
    decreases c.limit - p.state.permits, |todo|, 0
  {
    hide Sum;
    var p' := Apply(c, p, Answer(r));
    StepKeepsPeriod(c, left, p, Answer(r));
    if p'.state.mode == HalfOpen {
      var due := Due(left, p, todo);
      SumRemove(due, r);
      assert Due(left, p', todo - {r}) == due - {r};
      assert |todo - {r}| == |todo| - 1;
      PaidClose(c, left, p', todo - {r});
    } else {
      assert After(c, p', []) == p' && Runs(c, left, p', []);
    }
    Continue(c, left, p, Answer(r));
  }

  lemma OpenedIsOk(c: Config, left: nat -> nat, s: State, first: nat, now: real, later: real)
    requires Opens(c, left, s, first, now)
    ensures var p := Opened(c, s, first, now, later);
            p.state.mode == HalfOpen && PeriodOk(c, left, p) && p.state.permits == 1
  {
    assert Sum(map[first := 1]) == 1 by {
      SumRemove(map[first := 1], first);
      assert map[first := 1] - {first} == map[];
    }
  }

  lemma PaysClose(c: Config, left: nat -> nat, s: State, first: nat, now: real, later: real, payers: set<nat>)
    requires Opens(c, left, s, first, now) && Pays(c, left, first, payers)
    ensures CanClose(c, left, Opened(c, s, first, now, later))
  {
    hide Sum, CanClose, Opens;
    var p := Opened(c, s, first, now, later);
    OpenedIsOk(c, left, s, first, now, later);
    var cost := Costs(left, payers);
    if first in payers {
      SumUpdate(cost, first, left(first) - 1);
      assert Due(left, p, payers) == cost[first := left(first) - 1];
    } else {
      assert Due(left, p, payers) == cost;
    }
    PaidClose(c, left, p, payers);
  }

  /** A half-open period can be closed exactly when there are `limit` requests whose
      URLs left, and one more for the request that opened the period unless it is
      among them, are no more than `limit`. */
  lemma PeriodCanCloseExactlyWhen(c: Config, left: nat -> nat, s: State, first: nat, now: real, later: real)
    requires Opens(c, left, s, first, now)
    ensures CanClose(c, left, Opened(c, s, first, now, later)) <==> Affordable(c, left, first)
  {
    var p := Opened(c, s, first, now, later);
    OpenedIsOk(c, left, s, first, now, later);
    if CanClose(c, left, p) {
      var es :| Runs(c, left, p, es) && After(c, p, es).state.mode == Closed;
      ClosingIsPaid(c, left, p, first, es);
    }
    if payers :| Pays(c, left, first, payers) {
      PaysClose(c, left, s, first, now, later, payers);
    }
  }

  // ------------------------------------------ periods without outstanding requests

  /** `limit` requests, `first` among them, that are answered without a redirect. */
  ghost predicate EnoughSingleHops(c: Config, left: nat -> nat, first: nat) {
    exists s: set<nat> :: SingleHops(c, left, first, s)
  }

  ghost predicate SingleHops(c: Config, left: nat -> nat, first: nat, s: set<nat>) {
    first in s && |s| == c.limit && forall r | r in s :: left(r) == 1
  }

  lemma {:induction false} SumAtLeastSize(m: map<nat, int>)
    requires forall k | k in m :: m[k] >= 1
    ensures Sum(m) >= |m|
    ensures Sum(m) == |m| <==> forall k | k in m :: m[k] == 1
    decreases |m|
  {
    if m != map[] {
      hide Sum;
      var k :| k in m;
      RemoveShrinks(m, k);
      SumRemove(m, k);
      SumAtLeastSize(m - {k});
      assert forall j | j in m :: j == k || j in m - {k};
    }
  }

  /** When every request still has to ask for some URL, only single ones are affordable. */
  lemma AffordableExactlyWhenSingle(c: Config, left: nat -> nat, first: nat)
    requires forall r :: left(r) >= 1
    ensures Affordable(c, left, first) <==> EnoughSingleHops(c, left, first)
  {
    hide Sum;
    forall s: set<nat> ensures Pays(c, left, first, s) <==> SingleHops(c, left, first, s) {
      var cost := Costs(left, s);
      assert cost.Keys == s;
      SumAtLeastSize(cost);
    }
  }

  /** With no request outstanding when it begins, a period can be closed exactly when
      its first request and `limit - 1` others are answered without a redirect. */
  lemma FreshPeriodClosesExactlyWhen(c: Config, left: nat -> nat, s: State, first: nat, now: real, later: real)
    requires Opens(c, left, s, first, now) && forall r :: left(r) >= 1
    ensures CanClose(c, left, Opened(c, s, first, now, later)) <==> EnoughSingleHops(c, left, first)
  {
    PeriodCanCloseExactlyWhen(c, left, s, first, now, later);
    AffordableExactlyWhenSingle(c, left, first);
  }

  /** With no request outstanding, an answer closes the breaker exactly when it is the
      last of `limit` requests that asked for one URL each, and nobody else took a
      permit. */
  lemma ClosesExactlyOnSingleHops(c: Config, left: nat -> nat, p: Period, r: nat)
    requires PeriodOk(c, left, p) && Enabled(c, left, p, Answer(r)) && forall x :: left(x) >= 1
    ensures Apply(c, p, Answer(r)).state.mode == Closed <==>
            p.answered + {r} == p.taken.Keys && |p.taken| == c.limit && forall x | x in p.taken :: left(x) == 1
  {
    hide Sum;
    var all := p.answered + {r};
    assert |all| == |p.answered| + 1;
    forall x | x in all ensures x in p.taken {
      assert Taken(p, x) == left(x);
    }
    SubsetSize(all, p.taken.Keys);
    assert |p.taken| == |p.taken.Keys|;
    SumAtLeastSize(p.taken);
  }

  lemma SubsetSize(a: set<nat>, b: set<nat>)
    requires a <= b
    ensures |a| <= |b| && (|a| == |b| ==> a == b)
  {
    assert b == a + (b - a) && |b| == |a| + |b - a|;
    assert |a| == |b| ==> b - a == {};
  }

  /** When no request is outstanding and every answer sits behind a redirect, no run
      of the period closes the breaker. */
  lemma RedirectsKeepItOpen(c: Config, left: nat -> nat, s: State, first: nat, now: real, later: real, es: seq<Probe>)
    requires Opens(c, left, s, first, now) && forall r :: left(r) >= 2
    requires Runs(c, left, Opened(c, s, first, now, later), es)
    ensures After(c, Opened(c, s, first, now, later), es).state.mode != Closed
  {
    FreshPeriodClosesExactlyWhen(c, left, s, first, now, later);
  }

  /** The manager's default of two permits: one request behind one redirect is
      answered, and leaves a half-open breaker that admits nobody. */
  lemma OneRedirectUsesUpThePeriod(c: Config, s: State, now: real, later: real)
    requires c.Ok() && c.limit == 2 && s.mode == Open && Admits(c, s, now)
    ensures var s1 := Step(c, s, Ask(now, later));
            var s2 := Step(c, s1, Ask(later, later));
            var s3 := Step(c, s2, Success);
            && Admits(c, s1, later) && s3.mode == HalfOpen && forall t :: !Admits(c, s3, t)
  {}

  // --------------------------------------------- periods with outstanding requests

  lemma {:induction false} SumOfZeros(m: map<nat, int>)
    requires forall k | k in m :: m[k] == 0
    ensures Sum(m) == 0
    decreases |m|
  {
    if m != map[] {
      var k :| k in m;
      RemoveShrinks(m, k);
      SumRemove(m, k);
      SumOfZeros(m - {k});
    }
  }

  /** `limit` requests that were admitted to their last URL before the period can
      close it, however many URLs all other requests have. */
  lemma OutstandingRequestsClose(c: Config, left: nat -> nat, s: State, first: nat, now: real, later: real,
                                 waiting: set<nat>)
    requires Opens(c, left, s, first, now) && |waiting| == c.limit && forall r | r in waiting :: left(r) == 0
    ensures CanClose(c, left, Opened(c, s, first, now, later))
  {
    SumOfZeros(Costs(left, waiting));
    assert Pays(c, left, first, waiting);
    PeriodCanCloseExactlyWhen(c, left, s, first, now, later);
  }

  function Repeated(e: Event, n: nat): (events: seq<Event>)
    ensures |events| == n && forall i | 0 <= i < n :: events[i] == e
  {
    seq(n, _ => e)
  }

  lemma RunNext(c: Config, before: seq<Event>, e: Event, n: nat)
    requires n > 0
    ensures Run(c, before + Repeated(e, n)) == Step(c, Run(c, before + Repeated(e, n - 1)), e)
  {
    hide Step;
    assert (before + Repeated(e, n))[..|before| + n - 1] == before + Repeated(e, n - 1);
  }

  lemma {:induction false} AsksLeaveClosed(c: Config, n: nat)
    ensures Run(c, Repeated(Ask(0.0, 0.0), n)) == FRESH
  {
    if n > 0 {
      AsksLeaveClosed(c, n - 1);
      RunNext(c, [], Ask(0.0, 0.0), n);
      assert forall k: nat :: [] + Repeated(Ask(0.0, 0.0), k) == Repeated(Ask(0.0, 0.0), k);
    }
  }

  lemma {:induction false} FailuresTrip(c: Config, before: seq<Event>, n: nat)
    requires c.Ok() && Run(c, before) == FRESH && n <= c.threshold
    ensures Run(c, before + Repeated(Failure(0.0), n))
            == FRESH.(mode := if n == c.threshold then Open else Closed, failures := n)
  {
    if n == 0 {
      assert before + Repeated(Failure(0.0), 0) == before;
    } else {
      FailuresTrip(c, before, n - 1);
      RunNext(c, before, Failure(0.0), n);
    }
  }

  lemma {:induction false} SuccessesClose(c: Config, before: seq<Event>, n: nat)
    requires c.Ok() && Run(c, before).mode == HalfOpen && Run(c, before).successes == 0 && n <= c.limit
    ensures var s := Run(c, before + Repeated(Success, n));
            if n == c.limit then s.mode == Closed else s.mode == HalfOpen && s.successes == n
  {
    if n == 0 {
      assert before + Repeated(Success, 0) == before;
    } else {
      SuccessesClose(c, before, n - 1);
      RunNext(c, before, Success, n);
    }
  }

  /** `limit` requests with two URLs each ask for both while the breaker is closed. */
  function AskedTwice(c: Config): seq<Event> {
    Repeated(Ask(0.0, 0.0), 2 * c.limit)
  }

  /** Others fail, and a third request opens a period. */
  function Reopened(c: Config): seq<Event> {
    AskedTwice(c) + Repeated(Failure(0.0), c.threshold) + [Ask(c.recovery, c.recovery)]
  }

  /** The successes of the first ones close the period, though each of them followed
      a redirect. */
  lemma OutstandingRedirectsClose(c: Config, hops: nat -> nat, first: nat)
    requires c.Ok() && forall r :: hops(r) == 2
    ensures forall i | 0 <= i <= 2 * c.limit :: Run(c, AskedTwice(c)[..i]).mode == Closed
    ensures Run(c, Reopened(c)).mode == HalfOpen
    ensures Run(c, Reopened(c) + Repeated(Success, c.limit)).mode == Closed
    ensures !EnoughSingleHops(c, hops, first)
  {
    var ask := Ask(0.0, 0.0);
    forall i | 0 <= i <= 2 * c.limit ensures Run(c, AskedTwice(c)[..i]).mode == Closed {
      AsksLeaveClosed(c, i);
      assert AskedTwice(c)[..i] == Repeated(ask, i);
    }
    AsksLeaveClosed(c, 2 * c.limit);
    FailuresTrip(c, AskedTwice(c), c.threshold);
    var tripped := AskedTwice(c) + Repeated(Failure(0.0), c.threshold);
    assert Reopened(c)[..|tripped|] == tripped;
    SuccessesClose(c, Reopened(c), c.limit);
  }
}
