/** Request pacing per address and bandwidth reservation (rate_limiter.py). Times
    and rates are reals. */
module RateLimiters {
  import opened Collections

  type Address = string

  const MAX_AGE: real := 3600.0
  const MAX_CHUNKS: nat := 20

  function MaxReal(a: real, b: real): (m: real)
    ensures m >= a && m >= b && (m == a || m == b)
  {
    if a < b then b else a
  }

  function MinReal(a: real, b: real): real {
    if a < b then a else b
  }

  // -------------------------------------------------------- spacing per address

  /** A reservation with the delay in force for it, or a cleanup of entries older
      than `age`. */
  datatype Event = Wait(address: Address, now: real, delay: real) | Cleanup(now: real, age: real)

  type Table = map<Address, real>

  function Last(table: Table, address: Address): real {
    if address in table then table[address] else 0.0
  }

  /** The time a reservation gets. */
  function Reserve(table: Table, address: Address, now: real, delay: real): real {
    MaxReal(now, Last(table, address) + delay)
  }

  function Step(table: Table, e: Event): Table {
    match e
    case Wait(address, now, delay) => table[address := Reserve(table, address, now, delay)]
    case Cleanup(now, age) => map a | a in table && now - table[a] <= age :: table[a]
  }

  function Run(events: seq<Event>): Table {
    if events == [] then map[] else Step(Run(events[..|events| - 1]), events[|events| - 1])
  }

  function ReservedAt(events: seq<Event>, i: nat): real
    requires i < |events| && events[i].Wait?
  {
    Reserve(Run(events[..i]), events[i].address, events[i].now, events[i].delay)
  }

  /** The clock does not go back. */
  predicate Ordered(events: seq<Event>) {
    forall i, j | 0 <= i < j < |events| :: events[i].now <= events[j].now
  }

  /** Every delay is at least the interval, and no cleanup forgets sooner than that. */
  predicate Respects(interval: real, events: seq<Event>) {
    forall e | e in events :: if e.Wait? then e.delay >= interval else e.age >= interval
  }

  /** A past reservation is either still remembered, or an interval has gone by. */
  predicate Accounted(interval: real, table: Table, address: Address, reserved: real, now: real) {
    (address in table && table[address] >= reserved) || reserved + interval <= now
  }

  lemma StepAccounts(interval: real, table: Table, e: Event, address: Address, reserved: real, now: real)
    requires interval >= 0.0 && Accounted(interval, table, address, reserved, now) && now <= e.now
    requires if e.Wait? then e.delay >= interval else e.age >= interval
    ensures Accounted(interval, Step(table, e), address, reserved, e.now)
  {}

  lemma {:induction false} ReservationsAccounted(interval: real, events: seq<Event>, i: nat)
    requires interval >= 0.0 && Ordered(events) && Respects(interval, events)
    requires i < |events| && events[i].Wait?
    ensures Accounted(interval, Run(events), events[i].address, ReservedAt(events, i), events[|events| - 1].now)
    decreases |events|
  {
    var n := |events| - 1;
    assert events[n] in events;
    if i < n {
      var before := events[..n];
      assert before[..i] == events[..i];
      ReservationsAccounted(interval, before, i);
      StepAccounts(interval, Run(before), events[n], events[i].address, ReservedAt(events, i), events[n - 1].now);
    }
  }

  /** Reservations for one address are an interval apart, over any run with
      cleanups that keep entries for at least the interval. */
  lemma ReservationsAreSpaced(interval: real, events: seq<Event>, i: nat, j: nat)
    requires interval >= 0.0 && Ordered(events) && Respects(interval, events)
    requires i < j < |events| && events[i].Wait? && events[j].Wait? && events[i].address == events[j].address
    ensures ReservedAt(events, j) >= ReservedAt(events, i) + interval
  {
    var before := events[..j];
    assert before[..i] == events[..i];
    ReservationsAccounted(interval, before, i);
    assert events[j] in events;
  }

  /** What the table remembers is the time of an earlier reservation. */
  lemma {:induction false} RememberedWasReserved(events: seq<Event>, address: Address) returns (i: nat)
    requires address in Run(events)
    ensures i < |events| && events[i].Wait? && events[i].address == address
    ensures Run(events)[address] == ReservedAt(events, i)
    decreases |events|
  {
    var n := |events| - 1;
    var before := events[..n];
    if events[n].Wait? && events[n].address == address {
      i := n;
    } else {
      i := RememberedWasReserved(before, address);
      assert before[..i] == events[..i];
    }
  }

  /** Nobody waits longer than needed: a reservation is due at once, or just its own
      delay after an earlier one for the address - or after time zero, where the clock
      is nearer to that. */
  lemma ReservationsAreEarliest(events: seq<Event>, j: nat)
    requires j < |events| && events[j].Wait?
    ensures ReservedAt(events, j) >= events[j].now
    ensures || ReservedAt(events, j) == events[j].now
            || ReservedAt(events, j) == events[j].delay
            || exists i: nat | i < j :: ReservedBefore(events, i, j)
  {
    var table := Run(events[..j]);
    if events[j].address in table {
      var i := RememberedWasReserved(events[..j], events[j].address);
      assert events[..j][..i] == events[..i];
      assert ReservedAt(events, j) == events[j].now || ReservedBefore(events, i, j);
    }
  }

  ghost predicate ReservedBefore(events: seq<Event>, i: nat, j: nat)
    requires i < j < |events| && events[j].Wait?
  {
    && events[i].Wait? && events[i].address == events[j].address
    && ReservedAt(events, j) == ReservedAt(events, i) + events[j].delay
  }

  /** And only with such cleanups: one that forgets sooner lets the very next
      reservation come too early. */
  lemma EarlyCleanupBreaksSpacing(interval: real, age: real, address: Address) returns (events: seq<Event>)
    requires 0.0 <= age < interval
    ensures |events| == 3 && Ordered(events) && events[1].Cleanup? && events[1].age == age
    ensures events[0].Wait? && events[2].Wait? && events[0].address == events[2].address == address
    ensures events[0].delay == events[2].delay == interval
    ensures ReservedAt(events, 2) < ReservedAt(events, 0) + interval
  {
    var late := interval + (age + interval) / 2.0;
    var a, b, c := Wait(address, interval, interval), Cleanup(late, age), Wait(address, late, interval);
    events := [a, b, c];
    assert events[..0] == [] && events[..1] == [a] && [a][..0] == [];
    assert events[..2] == [a, b] && [a, b][..1] == [a];
    assert Run([a]) == Step(Run([]), a) && Run([a, b]) == Step(Run([a]), b);
    assert Run([a])[address] == interval;
    assert address !in Run([a, b]);
  }

  // --------------------------------------------------------------- the limiters

  class PerIPRateLimiter {
    const interval: real
    var lastRequests: Table
    /** Every reservation and cleanup so far. */
    ghost var events: seq<Event>

    ghost predicate Valid()
      reads this
    {
      && interval >= 0.0 && lastRequests == Run(events)
      && forall e | e in events && e.Wait? :: e.delay == interval
    }

    constructor (interval: real)
      requires interval >= 0.0
      ensures Valid() && this.interval == interval && events == []
    {
      this.interval := interval;
      lastRequests, events := map[], [];
    }

    /** `wait` for an address: the request is due at the reservation made for it. */
    method Wait(address: Address, now: real, later: real) returns (sleep: real)
      requires Valid()
      modifies this
      ensures Valid()
      ensures old(events) + [Event.Wait(address, now, interval)] <= events
      ensures events[|old(events)| + 1..] == [] || events[|old(events)| + 1..] == [Cleanup(later, MAX_AGE)]
      ensures now + sleep == ReservedAt(events, |old(events)|) && sleep >= 0.0
    {
      ghost var e := Event.Wait(address, now, interval);
      ghost var before := events;
      sleep := 0.0;
      var elapsed := now - Last(lastRequests, address);
      if elapsed < interval {
        sleep := interval - elapsed;
        lastRequests := lastRequests[address := now + sleep];
      } else {
        lastRequests := lastRequests[address := now];
      }
      events := events + [e];
      RunOneMore(before, e);
      assert events[..|before|] == before;
      if |lastRequests| % 500 == 0 {
        ghost var during := events;
        CleanupOldEntries(later, MAX_AGE);
        assert events[..|before|] == during[..|before|];
      }
    }

    method CleanupOldEntries(now: real, maxAge: real)
      requires Valid()
      modifies this
      ensures Valid() && events == old(events) + [Cleanup(now, maxAge)]
    {
      var expired := set a | a in lastRequests && now - lastRequests[a] > maxAge;
      RunOneMore(events, Cleanup(now, maxAge));
      lastRequests := lastRequests - expired;
      events := events + [Cleanup(now, maxAge)];
    }
  }

  lemma RespectsOneMore(interval: real, events: seq<Event>, e: Event)
    requires Respects(interval, events) && (if e.Wait? then e.delay >= interval else e.age >= interval)
    ensures Respects(interval, events + [e])
  {}

  lemma RunOneMore(events: seq<Event>, e: Event)
    ensures Run(events + [e]) == Step(Run(events), e)
  {
    assert (events + [e])[..|events|] == events;
  }

  /** `ChunkAwareRateLimiter`: the delay grows with the chunks active on an address. */
  class ChunkAwareRateLimiter {
    const interval: real
    const multiplier: real
    const perAddress: bool
    const disableScaling: bool
    var lastRequests: Table
    var lastRequest: real
    var chunks: map<Address, nat>
    /** Every reservation for an address so far. */
    ghost var events: seq<Event>

    ghost predicate Valid()
      reads this
    {
      && interval >= 0.0 && multiplier >= 0.0
      && lastRequests == Run(events) && Respects(interval, events)
      && forall a | a in chunks :: 1 <= chunks[a] <= MAX_CHUNKS
    }

    constructor (interval: real, multiplier: real, perAddress: bool, disableScaling: bool)
      requires interval >= 0.0
      ensures Valid() && events == [] && this.interval == interval
    {
      this.interval, this.perAddress, this.disableScaling := interval, perAddress, disableScaling;
      this.multiplier := MaxReal(0.0, multiplier);
      lastRequests, lastRequest, chunks, events := map[], 0.0, map[], [];
    }

    /** The delay in force: never below the interval. */
    function EffectiveDelay(address: Address): (delay: real)
      requires Valid()
      reads this
      ensures interval <= delay <= interval * (1.0 + multiplier)
      ensures disableScaling || address !in chunks || chunks[address] == 1 ==> delay == interval
      ensures !disableScaling && address in chunks ==>
                if chunks[address] >= 6 then delay == interval * (1.0 + multiplier)
                else delay == interval + (chunks[address] - 1) as real * (interval * multiplier / 5.0)
    {
      var active: nat := if address in chunks then chunks[address] else 1;
      Scaled(interval, multiplier, active);
      if disableScaling then interval else interval * Factor(multiplier, active)
    }

    method RegisterChunkStart(address: Address)
      requires Valid()
      modifies this`chunks
      ensures Valid()
      ensures chunks == var n := if address in old(chunks) then old(chunks)[address] else 0;
                        if n < MAX_CHUNKS then old(chunks)[address := n + 1] else old(chunks)
    {
      var current := if address in chunks then chunks[address] else 0;
      if current >= MAX_CHUNKS {
        return;
      }
      chunks := chunks[address := current + 1];
    }

    method RegisterChunkComplete(address: Address)
      requires Valid()
      modifies this`chunks
      ensures Valid()
      ensures chunks == if address in old(chunks) && old(chunks)[address] > 1
                        then old(chunks)[address := old(chunks)[address] - 1] else old(chunks) - {address}
    {
      var current := if address in chunks then chunks[address] else 0;
      if current > 1 {
        chunks := chunks[address := current - 1];
      } else {
        chunks := chunks - {address};
      }
    }

    /** `wait`; without an address the global budget applies. */
    method Wait(address: Option<Address>, now: real) returns (sleep: real)
      requires Valid()
      modifies this`lastRequests, this`lastRequest, this`events
      ensures Valid() && sleep >= 0.0
      ensures perAddress && address.Some? && address.value != "" ==>
                && events == old(events) + [Event.Wait(address.value, now, old(EffectiveDelay(address.value)))]
                && now + sleep == ReservedAt(events, |old(events)|) && lastRequest == old(lastRequest)
      ensures !(perAddress && address.Some? && address.value != "") ==>
                && lastRequest == MaxReal(now, old(lastRequest) + interval) == now + sleep
                && events == old(events)
    {
      hide EffectiveDelay, Run, Respects;
      sleep := 0.0;
      if perAddress && address.Some? && address.value != "" {
        var delay := EffectiveDelay(address.value);
        ghost var before := events;
        var elapsed := now - Last(lastRequests, address.value);
        if elapsed < delay {
          sleep := delay - elapsed;
        }
        lastRequests := lastRequests[address.value := now + sleep];
        events := events + [Event.Wait(address.value, now, delay)];
        RunOneMore(before, Event.Wait(address.value, now, delay));
        RespectsOneMore(interval, before, Event.Wait(address.value, now, delay));
        assert events[..|before|] == before;
      } else {
        var elapsed := now - lastRequest;
        if elapsed < interval {
          sleep := interval - elapsed;
        }
        lastRequest := now + sleep;
      }
    }
  }

  function Factor(multiplier: real, active: nat): real {
    MinReal(1.0 + multiplier, 1.0 + (active - 1) as real * multiplier * 0.2)
  }

  lemma FactorBounds(multiplier: real, active: nat)
    requires multiplier >= 0.0 && active >= 1
    ensures 1.0 <= Factor(multiplier, active) <= 1.0 + multiplier
    ensures active == 1 ==> Factor(multiplier, active) == 1.0
  {
    var n := (active - 1) as real;
    assert n >= 0.0;
    assert n * multiplier >= 0.0;
  }

  /** A fifth of the way to the full factor for each chunk beyond the first. */
  lemma FactorSteps(multiplier: real, active: nat)
    requires multiplier >= 0.0 && active >= 1
    ensures active >= 6 ==> Factor(multiplier, active) == 1.0 + multiplier
    ensures active < 6 ==> Factor(multiplier, active) == 1.0 + (active - 1) as real * multiplier / 5.0
  {
    var n := (active - 1) as real;
    if active >= 6 {
      assert (n - 5.0) * multiplier >= 0.0;
    } else {
      assert (5.0 - n) * multiplier >= 0.0;
    }
  }

  lemma Scaled(interval: real, multiplier: real, active: nat)
    requires interval >= 0.0 && multiplier >= 0.0 && active >= 1
    ensures interval <= interval * Factor(multiplier, active) <= interval * (1.0 + multiplier)
    ensures active == 1 ==> interval * Factor(multiplier, active) == interval
    ensures interval <= interval * (1.0 + multiplier)
    ensures interval * Factor(multiplier, active)
            == if active >= 6 then interval * (1.0 + multiplier)
               else interval + (active - 1) as real * (interval * multiplier / 5.0)
  {
    FactorSteps(multiplier, active);
    FactorBounds(multiplier, active);
    hide Factor;
    var factor := Factor(multiplier, active);
    Scales(interval, 1.0, factor);
    Scales(interval, factor, 1.0 + multiplier);
  }

  lemma Scales(x: real, a: real, b: real)
    requires x >= 0.0 && a <= b
    ensures x * a <= x * b
  {}

  // ------------------------------------------------------------------ bandwidth

  /** A block of bytes that was downloaded at a time. */
  datatype Block = Block(bytes: nat, now: real)

  function Cost(rate: real, b: Block): real
    requires rate > 0.0
  {
    b.bytes as real / rate
  }

  /** The release time of the last block: the sleep ends then. */
  function Release(rate: real, blocks: seq<Block>): real
    requires rate > 0.0
    decreases |blocks|, 1
  {
    if blocks == [] then 0.0 else
    Start(rate, blocks) + Cost(rate, blocks[|blocks| - 1])
  }

  /** When the last block's own share of the budget begins. */
  function Start(rate: real, blocks: seq<Block>): real
    requires rate > 0.0 && blocks != []
    decreases |blocks|, 0
  {
    MaxReal(blocks[|blocks| - 1].now, Release(rate, blocks[..|blocks| - 1]))
  }

  function Bytes(blocks: seq<Block>): nat {
    if blocks == [] then 0 else Bytes(blocks[..|blocks| - 1]) + blocks[|blocks| - 1].bytes
  }

  /** Whatever the callers do, consecutive blocks i..j never carry more than the
      rate allows between the start of the first and the release of the last. */
  lemma {:induction false} BandwidthIsBounded(rate: real, blocks: seq<Block>, i: nat, j: nat)
    requires rate > 0.0 && i < j <= |blocks|
    ensures Bytes(blocks[i..j]) as real <= rate * (Release(rate, blocks[..j]) - Start(rate, blocks[..i + 1]))
    decreases j - i
  {
    hide Cost, Bytes, Release, Start;
    var last := blocks[j - 1];
    OneMoreBlock(rate, blocks[..j]);
    assert blocks[..j][..j - 1] == blocks[..j - 1] && blocks[..j][j - 1] == last;
    assert blocks[i..j][..j - 1 - i] == blocks[i..j - 1];
    OneMoreBlock(rate, blocks[i..j]);
    if j == i + 1 {
      NoBytes(blocks[i..j - 1]);
      Splits(rate, Release(rate, blocks[..j]) - Start(rate, blocks[..j]), 0.0);
    } else {
      BandwidthIsBounded(rate, blocks, i, j - 1);
      var first, before, after := Start(rate, blocks[..i + 1]), Release(rate, blocks[..j - 1]),
          Release(rate, blocks[..j]);
      Grows(rate, before - first, after - first - Cost(rate, last), Cost(rate, last));
    }
  }

  lemma NoBytes(blocks: seq<Block>)
    requires blocks == []
    ensures Bytes(blocks) == 0
  {}

  lemma OneMoreBlock(rate: real, blocks: seq<Block>)
    requires rate > 0.0 && blocks != []
    ensures var before, last := blocks[..|blocks| - 1], blocks[|blocks| - 1];
            && Bytes(blocks) == Bytes(before) + last.bytes
            && Release(rate, blocks) == Start(rate, blocks) + Cost(rate, last)
            && Start(rate, blocks) == MaxReal(last.now, Release(rate, before))
            && rate * Cost(rate, last) == last.bytes as real
  {
    CostTimesRate(rate, blocks[|blocks| - 1]);
  }

  lemma CostTimesRate(rate: real, b: Block)
    requires rate > 0.0
    ensures rate * Cost(rate, b) == b.bytes as real
  {}

  lemma Grows(rate: real, a: real, b: real, cost: real)
    requires rate > 0.0 && a <= b
    ensures rate * a + rate * cost <= rate * (b + cost)
  {}

  /** And no block waits longer than that: some group that ends with the last
      block uses the rate fully, since the group began or since time zero. */
  lemma {:induction false} BandwidthIsUsed(rate: real, blocks: seq<Block>) returns (i: nat)
    requires rate > 0.0 && blocks != []
    ensures i < |blocks|
    ensures Bytes(blocks[i..]) as real == rate * (Release(rate, blocks) - Start(rate, blocks[..i + 1]))
    ensures Start(rate, blocks[..i + 1]) == blocks[i].now || (i == 0 && Start(rate, blocks[..i + 1]) == 0.0)
    decreases |blocks|
  {
    hide Cost, Bytes, Release, Start;
    var n := |blocks| - 1;
    var before, last := blocks[..n], blocks[n];
    OneMoreBlock(rate, blocks);
    if n == 0 || Start(rate, blocks) == last.now {
      i := n;
      assert blocks[..n + 1] == blocks;
      OneMoreBlock(rate, blocks[n..]);
      NoBytes(blocks[n..][..0]);
      if n == 0 {
        NothingReleased(rate, before);
      }
    } else {
      i := BandwidthIsUsed(rate, before);
      assert before[..i + 1] == blocks[..i + 1];
      assert blocks[i..][..n - i] == before[i..];
      OneMoreBlock(rate, blocks[i..]);
      Splits(rate, Release(rate, before) - Start(rate, blocks[..i + 1]), Cost(rate, last));
    }
  }

  lemma NothingReleased(rate: real, blocks: seq<Block>)
    requires rate > 0.0 && blocks == []
    ensures Release(rate, blocks) == 0.0
  {}

  lemma Splits(rate: real, a: real, b: real)
    ensures rate * (a + b) == rate * a + rate * b
  {}

  class BandwidthLimiter {
    /** `None` or zero: no limit. */
    const rate: Option<real>
    var nextAvailable: real
    ghost var blocks: seq<Block>

    ghost predicate Valid()
      reads this
    {
      rate.Some? && rate.value > 0.0 ==> nextAvailable == Release(rate.value, blocks)
    }

    constructor (rate: Option<real>)
      ensures Valid() && blocks == []
    {
      this.rate := rate;
      nextAvailable, blocks := 0.0, [];
    }

    /** `throttle`: sleeps until the block's release time. */
    method Throttle(bytes: int, now: real) returns (sleep: real)
      requires Valid() && (rate.Some? ==> rate.value >= 0.0)
      modifies this
      ensures Valid()
      ensures rate.None? || rate.value == 0.0 || bytes <= 0 ==> sleep == 0.0 && blocks == old(blocks)
      ensures rate.Some? && rate.value > 0.0 && bytes > 0 ==>
                blocks == old(blocks) + [Block(bytes, now)] && now + sleep == Release(rate.value, blocks) && sleep > 0.0
    {
      if rate.None? || rate.value == 0.0 || bytes <= 0 {
        return 0.0;
      }
      ghost var before := blocks;
      blocks := blocks + [Block(bytes, now)];
      assert blocks[..|blocks| - 1] == before;
      nextAvailable := MaxReal(now, nextAvailable) + bytes as real / rate.value;
      sleep := nextAvailable - now;
    }
  }
}
