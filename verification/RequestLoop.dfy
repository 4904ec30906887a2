/** The request loop (connection.py, `ConnectionManager.request`) with its
    redirects, retries and hand-over of the global request slot (concurrency.py,
    `acquire_thread` / `release_thread`). */
module RequestLoop {
  import opened Collections
  import B = CircuitBreakers

  const MAX_REDIRECTS: nat := 10

  type Url = string

  /** What one send comes to: a transport error, which is retried, any other
      exception of the attempt or while its response is handled, or a response;
      `location` is the resolved redirect target. */
  datatype Outcome = NetworkError | OtherError | Response(status: int, location: Option<Url>)

  datatype Error =
    | SlotLimit
    | Unsafe
    | CircuitOpen
    | Unprepared
    | OutOfScope
    | TooManyRedirects
    | TargetUnsafe
    | TargetOutOfScope
    | Exhausted
    | HttpStatus(status: int)
    | Unexpected

  datatype Turn = Done(result: Result) | Follow(target: Url)

  datatype Result = Returned(status: int) | Raised(error: Error)

  /** One send: the URL that was requested and the normalised form that was sent. */
  datatype Sent = Sent(url: Url, normalized: Url)

  predicate Retryable(outcome: Outcome) {
    outcome.NetworkError? || (outcome.Response? && (outcome.status == 429 || 500 <= outcome.status < 600))
  }

  predicate Final(status: int) {
    200 <= status < 300 || status == 304 || status == 416
  }

  predicate Redirects(outcome: Outcome, follow: bool) {
    outcome.Response? && follow && 300 <= outcome.status < 400 && outcome.location.Some? && outcome.location.value != ""
  }

  /** How many chain members may still be requested from this redirect depth. */
  function Hops(depth: nat): (n: nat)
    ensures 1 <= n <= MAX_REDIRECTS + 1
  {
    if depth < MAX_REDIRECTS then MAX_REDIRECTS + 1 - depth else 1
  }

  /** The global slot counter. `mine` are the slots this request chain is
      answerable for; other threads may move the rest at any time. */
  class Slots {
    const limit: nat
    var active: nat
    var mine: nat
    ghost var peak: nat

    ghost predicate Valid()
      reads this
    {
      mine <= active <= limit && mine <= peak
    }

    constructor (limit: nat)
      ensures Valid() && this.limit == limit && active == 0 && mine == 0 && peak == 0
    {
      this.limit := limit;
      active, mine, peak := 0, 0, 0;
    }

    /** Other threads acquire and release slots of their own. */
    method Interfere()
      requires Valid()
      modifies this`active
      ensures Valid()
    {
      var n: nat :| mine <= n <= limit;
      active := n;
    }

    method Acquire() returns (ok: bool)
      requires Valid()
      modifies this
      ensures Valid() && ok == (old(active) < limit)
      ensures active == old(active) + (if ok then 1 else 0) && mine == old(mine) + (if ok then 1 else 0)
      ensures peak == if ok && old(peak) < mine then mine else old(peak)
    {
      if active >= limit {
        return false;
      }
      active, mine := active + 1, mine + 1;
      if peak < mine {
        peak := mine;
      }
      return true;
    }

    method Release()
      requires Valid() && mine > 0
      modifies this`active, this`mine
      ensures Valid() && active == old(active) - 1 && mine == old(mine) - 1
    {
      active, mine := active - 1, mine - 1;
    }
  }

  /** A streamed body that holds a slot until it is closed. */
  class LeasedStream {
    const slots: Slots
    var closed: bool

    constructor (slots: Slots)
      ensures !closed && this.slots == slots
    {
      this.slots := slots;
      closed := false;
    }

    /** Gives the slot back on the first call only. */
    method Close()
      requires slots.Valid() && (!closed ==> slots.mine > 0)
      modifies this`closed, slots`active, slots`mine
      ensures closed && slots.Valid()
      ensures slots.mine == old(slots.mine) - (if old(closed) then 0 else 1)
      ensures slots.active == old(slots.active) - (if old(closed) then 0 else 1)
    {
      if !closed {
        closed := true;
        slots.Release();
      }
    }
  }

  /** One call of the circuit breaker by this thread, with the clock readings it
      used and, for `can_execute`, the answer. */
  datatype BreakerCall =
    | Asked(domain: B.Domain, now: real, later: real, admitted: bool)
    | Told(domain: B.Domain, success: bool, now: real)

  function EventOf(call: BreakerCall): B.ManagerEvent {
    match call
    case Asked(d, now, later, _) => B.On(d, B.Ask(now, later))
    case Told(d, success, now) => B.On(d, if success then B.Success else B.Failure(now))
  }

  /** The per-domain breakers as this thread shares them with others. */
  class SharedBreaker {
    const config: B.Config
    /** Clock readings for this thread's n-th call. */
    const clock: nat -> (real, real)
    /** What other threads do between this thread's n-th call and the one before. */
    const others: nat -> seq<B.ManagerEvent>
    var states: map<B.Domain, B.State>
    var own: seq<BreakerCall>
    /** Everything that any thread did, and where this thread's calls are in it. */
    ghost var trace: seq<B.ManagerEvent>
    ghost var at: seq<nat>

    ghost predicate Valid()
      reads this
    {
      && states == B.ManagerRun(config, trace) && |at| == |own|
      && (forall i, j | 0 <= i < j < |at| :: at[i] < at[j])
      && forall i | 0 <= i < |own| :: Placed(i)
    }

    /** The call happened there, and its answer is the breaker's at that point. */
    ghost predicate Placed(i: nat)
      requires i < |own| == |at|
      reads this
    {
      && at[i] < |trace| && trace[at[i]] == EventOf(own[i])
      && (own[i].Asked? ==> own[i].admitted == B.Admits(config, StateAt(at[i], own[i].domain), own[i].now))
    }

    /** A domain's breaker after the first `k` events. */
    ghost function StateAt(k: nat, d: B.Domain): B.State
      requires k <= |trace|
      reads this
    {
      B.Lookup(B.ManagerRun(config, trace[..k]), d)
    }

    constructor (config: B.Config, clock: nat -> (real, real), others: nat -> seq<B.ManagerEvent>)
      ensures Valid() && own == [] && trace == []
      ensures this.config == config && this.clock == clock && this.others == others
    {
      this.config, this.clock, this.others := config, clock, others;
      states, trace, own, at := map[], [], [], [];
    }

    /** One event, by any thread. */
    method Happen(e: B.ManagerEvent)
      requires Valid()
      modifies this`states, this`trace
      ensures Valid() && trace == old(trace) + [e]
    {
      hide B.ManagerStep, B.ManagerRun, B.Admits, B.Lookup;
      RunOne(config, trace, e);
      states := B.ManagerStep(config, states, e);
      trace := trace + [e];
      forall i | 0 <= i < |own| ensures Placed(i) {
        assert old(Placed(i)) && trace[..at[i]] == old(trace)[..at[i]];
      }
    }

    method Others()
      requires Valid()
      modifies this`states, this`trace
      ensures Valid() && trace == old(trace) + others(|own|)
    {
      hide Valid;
      var events := others(|own|);
      for i := 0 to |events|
        invariant Valid() && trace == old(trace) + events[..i]
      {
        Happen(events[i]);
      }
    }

    /** A call of this thread, after what the others did. */
    method Record(call: BreakerCall)
      requires Valid()
      requires call.Asked? ==> call.admitted == B.Admits(config, B.Lookup(states, call.domain), call.now)
      modifies this
      ensures Valid() && own == old(own) + [call] && at == old(at) + [|old(trace)|]
      ensures trace == old(trace) + [EventOf(call)]
    {
      hide B.ManagerRun, B.Admits, B.Lookup;
      ghost var before := trace;
      assert forall i | 0 <= i < |at| :: Placed(i) && at[i] < |before|;
      Happen(EventOf(call));
      own, at := own + [call], at + [|before|];
      forall i | 0 <= i < |own| ensures Placed(i) {
        if i < |own| - 1 {
          assert old(Placed(i)) && trace[..at[i]] == before[..at[i]];
        } else {
          assert at[i] == |before| && trace[..at[i]] == before;
        }
      }
    }

    /** `can_execute`: the breaker's answer after everything that was done before. */
    method Ask(d: B.Domain) returns (admitted: bool)
      requires Valid()
      modifies this
      ensures Valid()
      ensures var n := |old(own)|;
              && own == old(own) + [Asked(d, clock(n).0, clock(n).1, admitted)]
              && trace == old(trace) + others(n) + [EventOf(own[n])]
              && at == old(at) + [|old(trace)| + |others(n)|]
              && admitted == B.Admits(config, B.Lookup(B.ManagerRun(config, old(trace) + others(n)), d), clock(n).0)
    {
      hide B.ManagerRun, B.Admits, B.Lookup, Placed;
      Others();
      var (now, later) := clock(|own|);
      admitted := B.Admits(config, B.Lookup(states, d), now);
      Record(Asked(d, now, later, admitted));
    }

    /** `record_success` and `record_failure` */
    method Tell(d: B.Domain, success: bool)
      requires Valid()
      modifies this
      ensures Valid()
      ensures var n := |old(own)|;
              && own == old(own) + [Told(d, success, clock(n).0)]
              && trace == old(trace) + others(n) + [EventOf(own[n])]
              && at == old(at) + [|old(trace)| + |others(n)|]
    {
      hide B.ManagerRun, B.Admits, B.Lookup, Placed;
      Others();
      Record(Told(d, success, clock(|own|).0));
    }
  }

  lemma RunOne(c: B.Config, trace: seq<B.ManagerEvent>, e: B.ManagerEvent)
    ensures B.ManagerRun(c, trace + [e]) == B.ManagerStep(c, B.ManagerRun(c, trace), e)
  {
    assert (trace + [e])[..|trace|] == trace;
  }

  /** How many of the chain's URLs had been left by redirect before send `k`. */
  function HopOf(ends: seq<nat>, k: nat): (hop: nat)
    ensures hop <= |ends|
  {
    if ends == [] || k <= ends[0] then 0 else 1 + HopOf(ends[1..], k)
  }

  class Connection {
    const slots: Slots?
    const maxRetries: nat
    const maxFailures: nat
    const validates: bool
    const safe: Url -> bool
    const inScope: Url -> bool
    const normalize: Url -> Url
    /** Normalisation and the waits before the first attempt raise no exception. */
    const prepares: Url -> bool
    const domain: Url -> B.Domain
    const breaker: SharedBreaker?
    /** What the server does with the n-th send. */
    const server: nat -> Outcome

    var sends: nat
    var consecutiveFailures: nat
    ghost var log: seq<Sent>
    /** Responses that were received and not closed. */
    ghost var open: nat

    constructor (slots: Slots?, breaker: SharedBreaker?, maxRetries: nat, maxFailures: nat, validates: bool,
                 safe: Url -> bool, inScope: Url -> bool, normalize: Url -> Url, prepares: Url -> bool,
                 domain: Url -> B.Domain, server: nat -> Outcome)
      ensures Valid() && sends == 0 && open == 0 && log == [] && this.slots == slots && this.breaker == breaker
    {
      this.slots, this.breaker, this.maxRetries, this.maxFailures := slots, breaker, maxRetries, maxFailures;
      this.validates, this.safe, this.inScope, this.normalize := validates, safe, inScope, normalize;
      this.prepares, this.domain, this.server := prepares, domain, server;
      sends, consecutiveFailures, log, open := 0, 0, [], 0;
    }

    ghost predicate Valid()
      reads this
    {
      |log| == sends
    }

    ghost predicate SlotsOk()
      reads slots
    {
      slots != null ==> slots.Valid()
    }

    ghost function Mine(): nat
      reads slots
    {
      if slots == null then 0 else slots.mine
    }

    ghost function Peak(): nat
      reads slots
    {
      if slots == null then 0 else slots.peak
    }

    predicate Checked(sent: Sent) {
      && sent.normalized == normalize(sent.url) && inScope(sent.normalized) && prepares(sent.url)
      && (validates ==> safe(sent.url))
    }

    /** Every logged send from index `from` on went to a checked URL. */
    ghost predicate CheckedFrom(log: seq<Sent>, from: nat) {
      forall i | from <= i < |log| :: Checked(log[i])
    }

    ghost predicate LastSent(status: int)
      reads this
    {
      sends > 0 && server(sends - 1).Response? && server(sends - 1).status == status
    }

    ghost predicate BreakerOk()
      reads breaker
    {
      breaker != null ==> breaker.Valid()
    }

    ghost function Own(): seq<BreakerCall>
      reads breaker
    {
      if breaker == null then [] else breaker.own
    }

    /** All attempts for all URLs that a request may still come to. */
    function MaxSends(depth: nat): nat {
      Hops(depth) * (maxRetries + 1)
    }

    lemma HopsBound(depth: nat)
      ensures maxRetries + 1 <= MaxSends(depth)
      ensures depth >= MAX_REDIRECTS ==> Hops(depth) == 1
      ensures depth < MAX_REDIRECTS ==>
                Hops(depth) == Hops(depth + 1) + 1 && maxRetries + 1 + MaxSends(depth + 1) == MaxSends(depth)
    {}

    /** `request` from the given redirect depth. `chain` are the URLs it came to,
        `ends` the sends at which it went on to the next one, `asks` the questions
        it put to the circuit breaker. */
    method Request(url: Url, follow: bool, depth: nat, stream: bool)
      returns (r: Result, lease: LeasedStream?,
               ghost chain: seq<Url>, ghost ends: seq<nat>, ghost asks: seq<BreakerCall>)
      requires Valid() && SlotsOk() && BreakerOk()
      modifies this, slots, breaker
      ensures Valid() && SlotsOk() && BreakerOk()
      // bounded work, and only on checked URLs
      ensures old(sends) <= sends <= old(sends) + MaxSends(depth)
      ensures old(log) <= log && CheckedFrom(log, old(|log|))
      // the chain starts at `url` and is what the server's redirects make of it
      ensures Chained(log, old(sends), chain, ends, r, follow) && chain[0] == url && 1 <= |chain| <= Hops(depth)
      // slots: one at a time, all given back unless a streamed response carries one away
      ensures Mine() == old(Mine()) + (if lease != null then 1 else 0)
      ensures Peak() <= Max(old(Peak()), old(Mine()) + 1)
      ensures lease != null <==> r.Returned? && stream && slots != null
      ensures lease != null ==> fresh(lease) && !lease.closed && lease.slots == slots
      // responses: all closed but the returned one
      ensures open == old(open) + (if r.Returned? then 1 else 0)
      ensures Explained(r, old(sends), follow)
      ensures r.Returned? ==> consecutiveFailures == 0
      ensures r == Raised(SlotLimit) ==> slots != null && slots.active == slots.limit
      ensures r == Raised(TooManyRedirects) ==> |chain| == Hops(depth)
      // the circuit breaker: asked for every URL in turn, told once for the last, or never
      ensures AsksFor(asks, chain, r) && TellsAfter(old(Own()) + asks, Own(), r, chain[|chain| - 1])
      decreases Hops(depth)
    {
      hide Explained, TellsAfter, Redirects, AsksFor, AfterSend, BeforeSend, Reports, Hops, MaxSends, Chained, Tried,
        CheckedFrom, Refuses, Turned, RedirectRefused, Slots.Valid, SharedBreaker.Valid;
      chain, ends := [url], [];
      HopsBound(depth);
      var refusal;
      refusal, asks := Begin(url);
      if refusal.Some? {
        r, lease := Raised(refusal.value), null;
        NothingSent(log, url, r, follow);
        return;
      }
      ghost var since, first := |log|, asks;
      var step;
      step, lease := Turns(url, normalize(url), follow, depth, stream);
      ghost var mid := log;
      if step.Done? {
        r := step.result;
        AsksEnd(asks, url, r);
        ChainEnds(log, since, url, step, follow);
        return;
      }
      r, lease, chain, ends, asks := Request(step.target, follow, depth + 1, stream);
      Onward(since, mid, url, step, first, chain, ends, asks, r, follow);
      assert old(Own()) + first + asks == old(Own()) + (first + asks);
      chain, ends, asks := [url] + chain, [|mid| - 1] + ends, first + asks;
    }

    /** What holds from a followed redirect on holds from the URL before it. */
    lemma Onward(since: nat, mid: seq<Sent>, url: Url, step: Turn, first: seq<BreakerCall>,
                 chain: seq<Url>, ends: seq<nat>, asks: seq<BreakerCall>, r: Result, follow: bool)
      requires Tried(mid, since, url, step, follow) && step.Follow? && mid <= log && since < |mid|
      requires Chained(log, |mid|, chain, ends, r, follow) && |chain| >= 1 && chain[0] == step.target
      requires Explained(r, |mid|, follow)
      requires AsksFor(first, [url], Raised(Exhausted)) && AsksFor(asks, chain, r)
      requires CheckedFrom(mid, since) && CheckedFrom(log, |mid|)
      ensures Explained(r, since, follow) && AsksFor(first + asks, [url] + chain, r) && CheckedFrom(log, since)
      ensures Chained(log, since, [url] + chain, [|mid| - 1] + ends, r, follow)
      ensures ([url] + chain)[|chain|] == chain[|chain| - 1]
    {
      hide *;
      ChainExplained(r, since, |mid|, follow);
      AsksChain(first, url, asks, chain, r);
      ChainGoesOn(mid, log, since, url, step, chain, ends, r, follow);
      CheckedOn(since, mid);
    }

    /** Takes a slot and makes the checks; a refusal gives the slot back. */
    method Begin(url: Url) returns (refusal: Option<Error>, ghost asks: seq<BreakerCall>)
      requires SlotsOk() && BreakerOk()
      modifies slots, breaker
      ensures SlotsOk() && BreakerOk() && Own() == old(Own()) + asks
      ensures Mine() == old(Mine()) + (if slots != null && refusal.None? then 1 else 0)
      ensures Peak() <= Max(old(Peak()), old(Mine()) + 1)
      ensures refusal.None? ==> inScope(normalize(url)) && prepares(url) && (validates ==> safe(url))
      ensures refusal.Some? ==> BeforeSend(Raised(refusal.value)) && Refuses(url, refusal.value)
      ensures refusal == Some(SlotLimit) ==> slots != null && slots.active == slots.limit
      ensures AsksFor(asks, [url], if refusal.Some? then Raised(refusal.value) else Raised(Exhausted))
    {
      hide AsksFor;
      asks := [];
      if slots != null {
        slots.Interfere();
        var acquired := slots.Acquire();
        if !acquired {
          NoAsks(url);
          return Some(SlotLimit), asks;
        }
      }
      refusal, asks := Admit(url);
      if refusal.Some? {
        ReleaseSlot();
      }
    }

    /** The checks before the first send, in order. */
    method Admit(url: Url) returns (refusal: Option<Error>, ghost asks: seq<BreakerCall>)
      requires BreakerOk()
      modifies breaker
      ensures BreakerOk() && Own() == old(Own()) + asks
      ensures refusal.None? ==> inScope(normalize(url)) && prepares(url) && (validates ==> safe(url))
      ensures refusal.Some? ==>
                refusal.value in {Unsafe, CircuitOpen, Unprepared, OutOfScope} && Refuses(url, refusal.value)
      ensures AsksFor(asks, [url], if refusal.Some? then Raised(refusal.value) else Raised(Exhausted))
    {
      asks := [];
      if validates && !safe(url) {
        return Some(Unsafe), asks;
      }
      if breaker != null {
        var admitted := breaker.Ask(domain(url));
        asks := [breaker.own[|breaker.own| - 1]];
        if !admitted {
          return Some(CircuitOpen), asks;
        }
      }
      if !prepares(url) {
        return Some(Unprepared), asks;
      }
      return if inScope(normalize(url)) then None else Some(OutOfScope), asks;
    }

    /** The retry loop, and the `finally` clause: a slot that no stream carries away
        is given back. */
    method Turns(url: Url, normalized: Url, follow: bool, depth: nat, stream: bool)
      returns (step: Turn, lease: LeasedStream?)
      requires Valid() && SlotsOk() && BreakerOk() && (slots != null ==> slots.mine > 0)
      requires normalized == normalize(url) && inScope(normalized) && prepares(url) && (validates ==> safe(url))
      modifies this, slots, breaker
      ensures Valid() && SlotsOk() && BreakerOk() && Peak() == old(Peak())
      ensures Mine() == old(Mine()) - (if slots != null && lease == null then 1 else 0)
      ensures old(sends) < sends <= old(sends) + maxRetries + 1
      ensures old(log) <= log && CheckedFrom(log, old(|log|))
      ensures lease != null <==> step.Done? && step.result.Returned? && stream && slots != null
      ensures lease != null ==> fresh(lease) && !lease.closed && lease.slots == slots
      ensures step.Follow? ==> depth < MAX_REDIRECTS
      ensures step == Done(Raised(TooManyRedirects)) ==> depth >= MAX_REDIRECTS
      ensures open == old(open) + (if step.Done? && step.result.Returned? then 1 else 0)
      ensures step.Done? ==> Explained(step.result, old(sends), follow) && AfterSend(step.result)
      ensures Tried(log, old(sends), url, step, follow)
      ensures step.Done? && step.result.Returned? ==> consecutiveFailures == 0
      ensures if step.Done? then TellsAfter(old(Own()), Own(), step.result, url) else Own() == old(Own())
    {
      hide CheckedFrom, Explained, Tried, TellsAfter, AfterSend, SharedBreaker.Valid;
      step, lease := Attempts(url, normalized, follow, depth, stream);
      if lease == null {
        ReleaseSlot();
      }
    }

    /** The retry loop for one URL: a final result, or a redirect to follow. */
    method Attempts(url: Url, normalized: Url, follow: bool, depth: nat, stream: bool)
      returns (step: Turn, lease: LeasedStream?)
      requires Valid() && SlotsOk() && BreakerOk() && (slots != null ==> slots.mine > 0)
      requires normalized == normalize(url) && inScope(normalized) && prepares(url) && (validates ==> safe(url))
      modifies this, slots, breaker
      ensures Valid() && SlotsOk() && BreakerOk() && Mine() == old(Mine()) && Peak() == old(Peak())
      ensures old(sends) < sends <= old(sends) + maxRetries + 1
      ensures old(log) <= log && CheckedFrom(log, old(|log|))
      ensures lease != null <==> step.Done? && step.result.Returned? && stream && slots != null
      ensures lease != null ==> fresh(lease) && !lease.closed && lease.slots == slots
      ensures step.Follow? ==> depth < MAX_REDIRECTS
      ensures step == Done(Raised(TooManyRedirects)) ==> depth >= MAX_REDIRECTS
      ensures open == old(open) + (if step.Done? && step.result.Returned? then 1 else 0)
      ensures step.Done? ==> Explained(step.result, old(sends), follow) && AfterSend(step.result)
      ensures Tried(log, old(sends), url, step, follow)
      ensures step.Done? && step.result.Returned? ==> consecutiveFailures == 0
      ensures if step.Done? then TellsAfter(old(Own()), Own(), step.result, url) else Own() == old(Own())
    {
      hide SharedBreaker.Valid;
      lease := null;
      if consecutiveFailures >= maxFailures {
        consecutiveFailures := 0;
      }
      for attempt := 0 to maxRetries + 1
        invariant Valid() && SlotsOk() && BreakerOk() && attempt <= maxRetries
        invariant sends == old(sends) + attempt && old(log) <= log && CheckedFrom(log, old(|log|))
        invariant Mine() == old(Mine()) && Peak() == old(Peak())
        invariant open == old(open) && Own() == old(Own())
        invariant AllRetryable(old(sends), sends) && forall k | old(sends) <= k < sends :: log[k].url == url
      {
        hide Explained, TellsAfter, Retryable, Redirects, AfterSend;
        ghost var mid := sends;
        var ended;
        ended, lease := Attempt(url, normalized, follow, depth, stream, attempt == maxRetries);
        if ended.Some? {
          step := ended.value;
          if step == Done(Raised(Exhausted)) {
            GivenUp(follow);
          } else if step.Done? {
            ChainExplained(step.result, old(sends), mid, follow);
          }
          return;
        }
      }
      assert false;
    }

    /** One turn of the retry loop; `None` when the next one follows. */
    method Attempt(url: Url, normalized: Url, follow: bool, depth: nat, stream: bool, last: bool)
      returns (ended: Option<Turn>, lease: LeasedStream?)
      requires Valid() && SlotsOk() && BreakerOk() && (slots != null ==> slots.mine > 0)
      modifies this, slots, breaker
      ensures Valid() && SlotsOk() && BreakerOk() && Mine() == old(Mine()) && Peak() == old(Peak())
      ensures sends == old(sends) + 1 && log == old(log) + [Sent(url, normalized)]
      ensures lease != null <==>
                ended.Some? && ended.value.Done? && ended.value.result.Returned? && stream && slots != null
      ensures lease != null ==> fresh(lease) && !lease.closed && lease.slots == slots
      ensures open == old(open) + (if ended.Some? && ended.value.Done? && ended.value.result.Returned? then 1 else 0)
      ensures ended.None? ==> !last
      ensures ended.None? || ended.value == Done(Raised(Exhausted)) ==> Retryable(server(sends - 1))
      ensures ended.Some? && ended.value.Follow? ==> depth < MAX_REDIRECTS
      ensures ended == Some(Done(Raised(TooManyRedirects))) ==> depth >= MAX_REDIRECTS
      ensures ended.Some? ==> Turned(server(sends - 1), ended.value, follow)
      ensures ended.Some? && ended.value.Done? ==>
                && AfterSend(ended.value.result)
                && (ended.value.result == Raised(Exhausted) ==> last)
                && (ended.value.result != Raised(Exhausted) ==> Explained(ended.value.result, old(sends), follow))
                && (ended.value.result.Returned? ==> consecutiveFailures == 0)
      ensures if ended.Some? && ended.value.Done? then TellsAfter(old(Own()), Own(), ended.value.result, url)
              else Own() == old(Own())
    {
      hide SharedBreaker.Valid, TellsAfter, Reports;
      lease := null;
      var outcome := Send(url, normalized);
      NothingTold(Own(), url);
      if outcome.OtherError? {
        return Some(Done(Raised(Unexpected))), null;
      }
      if Redirects(outcome, follow) {
        open := open - 1;
        return Some(Redirected(normalize(outcome.location.value), depth)), null;
      }
      if Retryable(outcome) {
        consecutiveFailures := consecutiveFailures + 1;
        open := if outcome.Response? then open - 1 else open;
        if !last {
          return None, null;
        }
        Tell(url, Raised(Exhausted));
        return Some(Done(Raised(Exhausted))), null;
      }
      if !Final(outcome.status) {
        consecutiveFailures := consecutiveFailures + 1;
        open := open - 1;
        Tell(url, Raised(HttpStatus(outcome.status)));
        return Some(Done(Raised(HttpStatus(outcome.status)))), null;
      }
      consecutiveFailures := 0;
      Tell(url, Returned(outcome.status));
      if stream && slots != null {
        lease := new LeasedStream(slots);
      }
      return Some(Done(Returned(outcome.status))), lease;
    }

    lemma GivenUp(follow: bool)
      requires sends > maxRetries && AllRetryable(sends - maxRetries - 1, sends)
      ensures forall since: nat | since + maxRetries + 1 <= sends :: Explained(Raised(Exhausted), since, follow)
    {}

    /** The checks on a redirect target, before it is requested. */
    function Redirected(target: Url, depth: nat): (step: Turn) {
      if depth >= MAX_REDIRECTS then Done(Raised(TooManyRedirects))
      else if validates && !safe(target) then Done(Raised(TargetUnsafe))
      else if !inScope(target) then Done(Raised(TargetOutOfScope))
      else Follow(target)
    }

    /** The result is the server's doing: a returned response is the last one
        received, final and not a redirect to follow; an HTTP error is the last
        response and not one that is retried; giving up means that the last
        `maxRetries + 1` sends of this request all failed in a retryable way. */
    ghost predicate Explained(r: Result, since: nat, follow: bool)
      reads this
    {
      match r
      case Returned(status) =>
        && since < sends && LastSent(status) && !Redirects(server(sends - 1), follow)
        && (200 <= status < 300 || status in {304, 416})
      case Raised(error) =>
        && (error.HttpStatus? ==>
              && since < sends && LastSent(error.status)
              && !(200 <= error.status < 300) && !(500 <= error.status < 600) && error.status !in {304, 416, 429})
        && (error.Exhausted? ==> since + maxRetries + 1 <= sends && AllRetryable(sends - maxRetries - 1, sends))
        && (error in {TooManyRedirects, TargetUnsafe, TargetOutOfScope} ==>
              && since < sends && Redirects(server(sends - 1), follow)
              && var target := normalize(server(sends - 1).location.value);
                 && (error.TargetUnsafe? ==> validates && !safe(target))
                 && (error.TargetOutOfScope? ==> !inScope(target)))
        && (error.Unexpected? ==> since < sends && server(sends - 1).OtherError?)
    }

    ghost predicate AllRetryable(from: nat, to: nat) {
      forall i | from <= i < to ::
        server(i).NetworkError? || (server(i).Response? && (500 <= server(i).status < 600 || server(i).status == 429))
    }

    /** What the circuit breaker is told: one outcome for a request that was
        answered or given up, none for one that was refused or aborted. */
    function Reports(r: Result): seq<bool> {
      if breaker == null then [] else
        match r
        case Returned(_) => [true]
        case Raised(error) => if error.Exhausted? || error.HttpStatus? then [false] else []
    }

    /** The calls end with that one outcome, for the domain of the last URL. */
    ghost predicate TellsAfter(before: seq<BreakerCall>, after: seq<BreakerCall>, r: Result, last: Url) {
      && |after| == |before| + |Reports(r)| && after[..|before|] == before
      && (Reports(r) != [] ==>
            after[|before|].Told? && after[|before|].success == Reports(r)[0] && after[|before|].domain == domain(last))
    }

    /** The breaker was asked for the URLs of the chain in turn - for the last one
        unless the request ended before its turn - and admitted them all, except
        the last when that is why the request ended. */
    ghost predicate AsksFor(asks: seq<BreakerCall>, chain: seq<Url>, r: Result) {
      && chain != []
      && |asks| == (if breaker == null then 0 else
                    |chain| - if r.Raised? && r.error in {SlotLimit, Unsafe} then 1 else 0)
      && forall i | 0 <= i < |asks| ::
           && asks[i].Asked? && asks[i].domain == domain(chain[i])
           && (asks[i].admitted <==> !(i == |asks| - 1 && r == Raised(CircuitOpen)))
    }

    lemma NoAsks(url: Url)
      ensures AsksFor([], [url], Raised(SlotLimit))
    {}

    lemma AsksEnd(asks: seq<BreakerCall>, url: Url, r: Result)
      requires AsksFor(asks, [url], Raised(Exhausted)) && AfterSend(r)
      ensures AsksFor(asks, [url], r) && r != Raised(SlotLimit)
    {}

    lemma AsksChain(first: seq<BreakerCall>, url: Url, asks: seq<BreakerCall>, chain: seq<Url>, r: Result)
      requires AsksFor(first, [url], Raised(Exhausted)) && AsksFor(asks, chain, r)
      ensures AsksFor(first + asks, [url] + chain, r)
    {}

    /** Why a URL is refused before anything is sent to it. */
    predicate Refuses(url: Url, error: Error) {
      && (error.Unsafe? ==> validates && !safe(url))
      && (error.Unprepared? ==> !prepares(url))
      && (error.OutOfScope? ==> !inScope(normalize(url)))
    }

    predicate RedirectRefused(r: Result) {
      r.Raised? && r.error in {TooManyRedirects, TargetUnsafe, TargetOutOfScope}
    }

    /** What the last send to a URL says about how its turn ended. */
    predicate Turned(outcome: Outcome, step: Turn, follow: bool) {
      && (Redirects(outcome, follow) <==> step.Follow? || RedirectRefused(step.result))
      && (step.Follow? ==> step.target == normalize(outcome.location.value))
    }

    /** All sends from `since` on went to this URL; all but the last failed in a
        retryable way, and the last ended its turn. */
    ghost predicate Tried(log: seq<Sent>, since: nat, url: Url, step: Turn, follow: bool) {
      && since < |log| && (forall k | since <= k < |log| :: log[k].url == url)
      && (forall k | since <= k < |log| - 1 :: Retryable(server(k)))
      && Turned(server(|log| - 1), step, follow)
    }

    /** The sends from `since` on belong to the chain's URLs in turn: a URL follows
        where a send to the one before was redirected to it. Sends that ended no
        turn failed in a retryable way; the last one may have been a redirect that
        was refused. */
    ghost predicate Chained(log: seq<Sent>, since: nat, chain: seq<Url>, ends: seq<nat>, r: Result, follow: bool) {
      && since <= |log| && |chain| == |ends| + 1
      && (forall i | 0 <= i < |ends| ::
            && since <= ends[i] < |log| && Redirects(server(ends[i]), follow)
            && chain[i + 1] == normalize(server(ends[i]).location.value))
      && (forall i, j | 0 <= i < j < |ends| :: ends[i] < ends[j])
      && (forall k | since <= k < |log| :: SendOk(log, chain, ends, r, follow, k))
      && LastTurn(since, ends) <= |log| && (AfterSend(r) <==> LastTurn(since, ends) < |log|)
      && (r.Raised? ==> Refuses(chain[|ends|], r.error))
    }

    /** The first send that can belong to the last URL. */
    function LastTurn(since: nat, ends: seq<nat>): nat {
      if ends == [] then since else ends[|ends| - 1] + 1
    }

    ghost predicate SendOk(log: seq<Sent>, chain: seq<Url>, ends: seq<nat>, r: Result, follow: bool, k: nat)
      requires k < |log| && |chain| == |ends| + 1
    {
      && log[k].url == chain[HopOf(ends, k)]
      && (Redirects(server(k), follow) <==> k in ends || (k == |log| - 1 && RedirectRefused(r)))
      && (k < |log| - 1 ==> k in ends || Retryable(server(k)))
    }

    ghost function RedirectsAmong(from: nat, until: nat, follow: bool): set<nat> {
      set k: nat | from <= k < until && Redirects(server(k), follow)
    }

    /** Every redirect among the sends led on to one more URL, or was refused. */
    lemma RedirectsAreFollowed(log: seq<Sent>, since: nat, chain: seq<Url>, ends: seq<nat>, r: Result, follow: bool)
      requires Chained(log, since, chain, ends, r, follow)
      ensures |RedirectsAmong(since, |log|, follow)| == |chain| - 1 + if RedirectRefused(r) then 1 else 0
    {
      var refused := if RedirectRefused(r) then {|log| - 1} else {};
      IncreasingSize(ends);
      forall k ensures k in RedirectsAmong(since, |log|, follow) <==> k in Elements(ends) + refused {
        RedirectAt(log, since, chain, ends, r, follow, k);
      }
      RedirectAt(log, since, chain, ends, r, follow, |log| - 1);
      hide *;
      assert Elements(ends) !! refused;
      assert RedirectsAmong(since, |log|, follow) == Elements(ends) + refused;
    }

    lemma RedirectAt(log: seq<Sent>, since: nat, chain: seq<Url>, ends: seq<nat>, r: Result, follow: bool, k: int)
      requires Chained(log, since, chain, ends, r, follow)
      ensures k in RedirectsAmong(since, |log|, follow) <==>
              k in Elements(ends) || (k == |log| - 1 && RedirectRefused(r))
      ensures k == |log| - 1 && RedirectRefused(r) ==> k !in Elements(ends)
    {
      hide Redirects, Refuses;
      if since <= k < |log| {
        assert SendOk(log, chain, ends, r, follow, k);
      }
      assert RedirectRefused(r) ==> AfterSend(r);
    }

    /** A chain that ends at its first URL. */
    lemma ChainEnds(log: seq<Sent>, since: nat, url: Url, step: Turn, follow: bool)
      requires Tried(log, since, url, step, follow) && step.Done? && AfterSend(step.result)
      ensures Chained(log, since, [url], [], step.result, follow)
    {
      forall k | since <= k < |log| ensures SendOk(log, [url], [], step.result, follow, k) {
        assert k < |log| - 1 ==> Retryable(server(k));
      }
    }

    /** A chain that goes on behind a followed redirect. */
    lemma ChainGoesOn(mid: seq<Sent>, log: seq<Sent>, since: nat, url: Url, step: Turn,
                      chain: seq<Url>, ends: seq<nat>, r: Result, follow: bool)
      requires Tried(mid, since, url, step, follow) && step.Follow? && mid <= log
      requires Chained(log, |mid|, chain, ends, r, follow) && chain[0] == step.target
      ensures Chained(log, since, [url] + chain, [|mid| - 1] + ends, r, follow)
    {
      hide Redirects, Retryable, Refuses;
      var chain', ends' := [url] + chain, [|mid| - 1] + ends;
      assert ends'[1..] == ends;
      forall k | since <= k < |log| ensures SendOk(log, chain', ends', r, follow, k) {
        if k < |mid| {
          assert log[k] == mid[k];
          EarlySend(log, mid, since, url, step, chain', ends', r, follow, k);
        } else {
          assert SendOk(log, chain, ends, r, follow, k);
          assert k in ends' <==> k in ends;
        }
      }
    }

    lemma EarlySend(log: seq<Sent>, mid: seq<Sent>, since: nat, url: Url, step: Turn,
                    chain: seq<Url>, ends: seq<nat>, r: Result, follow: bool, k: nat)
      requires Tried(mid, since, url, step, follow) && step.Follow? && mid <= log && since <= k < |mid|
      requires |chain| == |ends| + 1 && ends != [] && ends[0] == |mid| - 1 && chain[0] == url
      requires forall i | 1 <= i < |ends| :: ends[i] >= |mid|
      requires k == |log| - 1 && k != |mid| - 1 ==> !RedirectRefused(r)
      ensures SendOk(log, chain, ends, r, follow, k)
    {
      assert log[k] == mid[k] && HopOf(ends, k) == 0;
      if k < |mid| - 1 {
        assert Retryable(server(k)) && !Redirects(server(k), follow);
        assert k !in ends;
      } else {
        assert ends[0] == k;
      }
    }

    /** The breaker admitted this request more often than it was told an outcome
        exactly when a send was redirected - whether that was followed or not - or
        raised an unexpected exception, or when the first URL was admitted and then
        could not be requested. It is never told more often. */
    lemma AdmissionsAgainstReports(since: nat, chain: seq<Url>, ends: seq<nat>, asks: seq<BreakerCall>,
                                   r: Result, follow: bool)
      requires breaker != null && Valid() && CheckedFrom(log, since)
      requires Chained(log, since, chain, ends, r, follow) && Explained(r, since, follow) && AsksFor(asks, chain, r)
      ensures Admissions(asks) >= |Reports(r)|
      ensures Admissions(asks) > |Reports(r)| <==>
              || (exists k | since <= k < |log| :: Redirects(server(k), follow) || server(k).OtherError?)
              || (asks != [] && asks[0].admitted && !(prepares(chain[0]) && inScope(normalize(chain[0]))))
    {
      AdmissionsOf(asks, r == Raised(CircuitOpen));
      hide Admissions;
      if |chain| > 1 {
        assert Redirects(server(ends[0]), follow);
      } else if AfterSend(r) {
        LastSend(since, chain, ends, r, follow);
      }
    }

    /** A request that stayed at its first URL was redirected only if that was
        refused, and only an unexpected exception ended it as one. */
    lemma LastSend(since: nat, chain: seq<Url>, ends: seq<nat>, r: Result, follow: bool)
      requires Valid() && CheckedFrom(log, since) && |chain| == 1 && AfterSend(r)
      requires Chained(log, since, chain, ends, r, follow) && Explained(r, since, follow)
      ensures prepares(chain[0]) && inScope(normalize(chain[0]))
      ensures (exists k | since <= k < |log| :: Redirects(server(k), follow) || server(k).OtherError?) <==>
              RedirectRefused(r) || r == Raised(Unexpected)
    {
      assert SendOk(log, chain, ends, r, follow, since);
      var last := |log| - 1;
      assert SendOk(log, chain, ends, r, follow, last);
      forall k | since <= k < |log| && (Redirects(server(k), follow) || server(k).OtherError?)
        ensures RedirectRefused(r) || r == Raised(Unexpected)
      {
        assert SendOk(log, chain, ends, r, follow, k);
      }
      assert RedirectRefused(r) ==> Redirects(server(last), follow);
      assert r == Raised(Unexpected) ==> server(last).OtherError?;
    }

    /** An answered request was admitted once for every URL of its chain. */
    lemma AnsweredAsks(asks: seq<BreakerCall>, chain: seq<Url>, r: Result)
      requires breaker != null && r.Returned? && AsksFor(asks, chain, r)
      ensures |asks| == |chain| == Admissions(asks)
      ensures forall i | 0 <= i < |chain| :: asks[i].Asked? && asks[i].admitted && asks[i].domain == domain(chain[i])
    {
      AdmissionsOf(asks, false);
    }

    /** Results that only come before anything is sent to the last URL. */
    predicate BeforeSend(r: Result) {
      r.Raised? && r.error in {SlotLimit, Unsafe, CircuitOpen, Unprepared, OutOfScope}
    }

    /** Results that only come after a send. */
    predicate AfterSend(r: Result) {
      !BeforeSend(r)
    }

    lemma NothingSent(log: seq<Sent>, url: Url, r: Result, follow: bool)
      requires BeforeSend(r) && Refuses(url, r.error)
      ensures Explained(r, sends, follow) && CheckedFrom(this.log, |this.log|)
      ensures Chained(log, |log|, [url], [], r, follow)
      ensures forall calls :: TellsAfter(calls, calls, r, url)
    {}

    lemma CheckedOn(from: nat, mid: seq<Sent>)
      requires from <= |mid| && mid <= log && CheckedFrom(mid, from) && CheckedFrom(log, |mid|)
      ensures CheckedFrom(log, from)
    {}

    lemma ChainExplained(r: Result, since: nat, mid: nat, follow: bool)
      requires since <= mid && Explained(r, mid, follow)
      ensures Explained(r, since, follow)
    {}

    /** One send; other threads use the slot counter meanwhile. */
    method Send(url: Url, normalized: Url) returns (outcome: Outcome)
      requires Valid() && SlotsOk()
      modifies this`sends, this`log, this`open, slots
      ensures Valid() && SlotsOk() && Mine() == old(Mine()) && Peak() == old(Peak())
      ensures outcome == server(old(sends)) && sends == old(sends) + 1
      ensures log == old(log) + [Sent(url, normalized)]
      ensures open == old(open) + (if outcome.Response? then 1 else 0)
    {
      if slots != null {
        slots.Interfere();
      }
      outcome := server(sends);
      sends, log := sends + 1, log + [Sent(url, normalized)];
      open := if outcome.Response? then open + 1 else open;
    }

    /** The `finally` clause: a slot this call still holds is given back. */
    method ReleaseSlot()
      requires SlotsOk() && (slots != null ==> slots.mine > 0)
      modifies slots
      ensures SlotsOk() && Peak() == old(Peak()) && (slots != null ==> slots.mine == old(slots.mine) - 1)
    {
      if slots != null {
        slots.Release();
      }
    }

    /** Unreported results leave the circuit breaker alone. */
    lemma NothingTold(calls: seq<BreakerCall>, url: Url)
      ensures forall r: Result | r.Raised? && !r.error.Exhausted? && !r.error.HttpStatus? ::
                TellsAfter(calls, calls, r, url)
    {}

    method Tell(url: Url, r: Result)
      requires BreakerOk() && (r.Returned? || r.error.Exhausted? || r.error.HttpStatus?)
      modifies breaker
      ensures BreakerOk() && TellsAfter(old(Own()), Own(), r, url)
    {
      hide SharedBreaker.Valid;
      if breaker != null {
        breaker.Tell(domain(url), r.Returned?);
      }
    }
  }

  function Elements(s: seq<nat>): set<nat> {
    set k | k in s
  }

  lemma {:induction false} IncreasingSize(s: seq<nat>)
    requires forall i, j | 0 <= i < j < |s| :: s[i] < s[j]
    ensures |Elements(s)| == |s|
  {
    if s != [] {
      var n := |s| - 1;
      IncreasingSize(s[..n]);
      assert s == s[..n] + [s[n]];
      assert Elements(s) == Elements(s[..n]) + {s[n]};
    }
  }

  function Admissions(calls: seq<BreakerCall>): (n: nat)
    ensures n <= |calls|
  {
    if calls == [] then 0 else
    (if calls[0].Asked? && calls[0].admitted then 1 else 0) + Admissions(calls[1..])
  }

  /** All were admitted, except perhaps the last. */
  lemma {:induction false} AdmissionsOf(calls: seq<BreakerCall>, refused: bool)
    requires forall i | 0 <= i < |calls| :: calls[i].Asked? && (calls[i].admitted <==> !(i == |calls| - 1 && refused))
    ensures Admissions(calls) == if refused && calls != [] then |calls| - 1 else |calls|
  {
    if calls != [] {
      AdmissionsOf(calls[1..], refused);
    }
  }
}
