/** Incident history per domain (domain_health.py, `DomainHealthTracker`). */
module DomainHealth {
  const WINDOW: real := 1209600.0
  const THRESHOLD: nat := 5
  const MAX_STORED: nat := 20

  type Domain = string

  function Newest(times: seq<real>): (kept: seq<real>)
    ensures |kept| <= MAX_STORED && |kept| <= |times|
    ensures kept == times[|times| - |kept|..]
  {
    if |times| > MAX_STORED then times[|times| - MAX_STORED..] else times
  }

  /** Incidents at or after the cutoff. */
  function Count(times: seq<real>, cutoff: real): nat {
    if times == [] then 0 else
    Count(times[..|times| - 1], cutoff) + (if times[|times| - 1] >= cutoff then 1 else 0)
  }

  predicate Throttled(times: seq<real>, now: real) {
    Count(times, now - WINDOW) >= THRESHOLD
  }

  predicate Sorted(times: seq<real>) {
    forall i, j | 0 <= i < j < |times| :: times[i] <= times[j]
  }

  /** In a sorted history the threshold is met exactly when the fifth newest
      incident is recent enough. */
  lemma {:induction false} SortedCount(times: seq<real>, cutoff: real, n: nat)
    requires Sorted(times)
    ensures Count(times, cutoff) >= n <==> n == 0 || (|times| >= n && times[|times| - n] >= cutoff)
    decreases |times|
  {
    if times != [] && n > 0 {
      var before := times[..|times| - 1];
      SortedCount(before, cutoff, n - 1);
      SortedCount(before, cutoff, n);
    }
  }

  /** A sorted history is throttled exactly when its fifth newest incident is at most
      two weeks old. */
  lemma ThrottledExactlyWhenFifthIsRecent(times: seq<real>, now: real)
    requires Sorted(times)
    ensures Throttled(times, now) <==> |times| >= 5 && now - times[|times| - 5] <= 14.0 * 24.0 * 3600.0
  {
    SortedCount(times, now - WINDOW, THRESHOLD);
  }

  /** Every recorded time from which on there are enough incidents has enough of
      them among the newest. */
  predicate NewestSuffice(times: seq<real>) {
    forall t | t in times :: Count(times, t) >= THRESHOLD ==> Count(Newest(times), t) >= THRESHOLD
  }

  /** Forgetting all but the newest incidents is invisible, at every time, exactly
      when the newest suffice for every recorded time. */
  lemma TruncationShowsExactlyWhen(times: seq<real>)
    ensures (forall now :: Throttled(Newest(times), now) == Throttled(times, now)) <==> NewestSuffice(times)
  {
    if NewestSuffice(times) {
      forall now ensures Throttled(Newest(times), now) == Throttled(times, now) {
        SufficientAt(times, now - WINDOW);
      }
    }
    if forall now :: Throttled(Newest(times), now) == Throttled(times, now) {
      forall t | t in times ensures Count(times, t) >= THRESHOLD ==> Count(Newest(times), t) >= THRESHOLD {
        assert t + WINDOW - WINDOW == t;
        assert Throttled(Newest(times), t + WINDOW) == Throttled(times, t + WINDOW);
      }
    }
  }

  lemma SufficientAt(times: seq<real>, cutoff: real)
    requires NewestSuffice(times)
    ensures Count(Newest(times), cutoff) >= THRESHOLD <==> Count(times, cutoff) >= THRESHOLD
  {
    hide Newest;
    NewestCountLess(times, cutoff);
    if Count(times, cutoff) >= THRESHOLD {
      var t := LeastCounted(times, cutoff);
      CountFalls(Newest(times), cutoff, t);
    }
  }

  lemma NewestCountLess(times: seq<real>, cutoff: real)
    ensures Count(Newest(times), cutoff) <= Count(times, cutoff)
  {
    var n := |times| - |Newest(times)|;
    assert times == times[..n] + Newest(times);
    CountAppend(times[..n], Newest(times), cutoff);
  }

  /** The least time that is counted counts exactly as many. */
  lemma {:induction false} LeastCounted(times: seq<real>, cutoff: real) returns (t: real)
    requires Count(times, cutoff) > 0
    ensures t in times && t >= cutoff && Count(times, t) == Count(times, cutoff)
    decreases |times|
  {
    var before, x := times[..|times| - 1], times[|times| - 1];
    if Count(before, cutoff) == 0 {
      t := x;
      CountFalls(before, cutoff, x);
    } else {
      t := LeastCounted(before, cutoff);
      if cutoff <= x < t {
        CountFalls(before, cutoff, x);
        CountFalls(before, x, t);
        t := x;
      }
    }
  }

  /** In a sorted history the newest always suffice. */
  lemma TruncationIsInvisible(times: seq<real>, now: real)
    requires Sorted(times)
    ensures Throttled(Newest(times), now) == Throttled(times, now)
  {
    hide Count, Newest, Sorted, Throttled;
    forall t | t in times ensures Count(times, t) >= THRESHOLD ==> Count(Newest(times), t) >= THRESHOLD {
      if Count(times, t) >= THRESHOLD {
        SortedSuffices(times, t);
      }
    }
    TruncationShowsExactlyWhen(times);
  }

  lemma SortedSuffices(times: seq<real>, t: real)
    requires Sorted(times) && Count(times, t) >= THRESHOLD
    ensures Count(Newest(times), t) >= THRESHOLD
  {
    SortedCount(times, t, THRESHOLD);
    hide Count;
    SortedCount(Newest(times), t, THRESHOLD);
  }

  /** Truncating after every incident keeps the newest of all of them. */
  lemma TruncationsCompose(times: seq<real>, t: real)
    ensures Newest(Newest(times) + [t]) == Newest(times + [t])
  {}

  /** Without new incidents throttling ends once and for all. */
  lemma ThrottlingOnlyEnds(times: seq<real>, earlier: real, later: real)
    requires earlier <= later && Throttled(times, later)
    ensures Throttled(times, earlier)
  {
    CountFalls(times, earlier - WINDOW, later - WINDOW);
  }

  lemma {:induction false} CountFalls(times: seq<real>, low: real, high: real)
    requires low <= high
    ensures Count(times, high) <= Count(times, low)
  {
    if times != [] {
      CountFalls(times[..|times| - 1], low, high);
    }
  }

  lemma {:induction false} CountConstant(t: real, n: nat, times: seq<real>, cutoff: real)
    requires |times| == n && forall i | 0 <= i < n :: times[i] == t
    ensures Count(times, cutoff) == if t >= cutoff then n else 0
    decreases n
  {
    if n > 0 {
      CountConstant(t, n - 1, times[..n - 1], cutoff);
    }
  }

  /** With a clock that went back the answer can be lost: recent incidents are
      dropped for newer entries with older times. */
  lemma ClockMustNotGoBack(now: real) returns (times: seq<real>)
    ensures Throttled(times, now) && !Throttled(Newest(times), now) && !Sorted(times) && !NewestSuffice(times)
  {
    var recent := seq(THRESHOLD, i => now);
    var stale := seq(MAX_STORED, i => now - WINDOW - 1.0);
    times := recent + stale;
    CountConstant(now, THRESHOLD, recent, now - WINDOW);
    CountConstant(now - WINDOW - 1.0, MAX_STORED, stale, now - WINDOW);
    CountAppend(recent, stale, now - WINDOW);
    assert Newest(times) == stale;
    assert times[0] > times[THRESHOLD];
    TruncationShowsExactlyWhen(times);
  }

  lemma {:induction false} CountAppend(a: seq<real>, b: seq<real>, cutoff: real)
    ensures Count(a + b, cutoff) == Count(a, cutoff) + Count(b, cutoff)
    decreases |b|
  {
    if b == [] {
      assert a + b == a;
    } else {
      assert (a + b)[..|a + b| - 1] == a + b[..|b| - 1];
      CountAppend(a, b[..|b| - 1], cutoff);
    }
  }

  function Lookup(m: map<Domain, seq<real>>, d: Domain): seq<real> {
    if d in m then m[d] else []
  }

  class DomainHealthTracker {
    const lower: string -> string
    var data: map<Domain, seq<real>>
    /** Every incident that was ever recorded, and the latest clock reading. */
    ghost var history: map<Domain, seq<real>>
    ghost var clock: real

    ghost predicate Valid()
      reads this
    {
      forall d ::
        && Lookup(data, d) == Newest(Lookup(history, d)) && Sorted(Lookup(history, d))
        && forall t | t in Lookup(history, d) :: t <= clock
    }

    /** `_load` from a file that an earlier tracker saved. */
    constructor (lower: string -> string, saved: map<Domain, seq<real>>, clock: real)
      requires forall d | d in saved ::
                 Sorted(saved[d]) && |saved[d]| <= MAX_STORED && forall t | t in saved[d] :: t <= clock
      ensures Valid() && this.clock == clock && history == saved && this.lower == lower
    {
      this.lower := lower;
      data, history, this.clock := saved, saved, clock;
    }

    method RecordIncident(domain: Domain, now: real)
      requires Valid() && now >= clock
      modifies this
      ensures Valid()
      ensures domain == "" ==> history == old(history)
      ensures domain != "" ==>
                history == old(history)[lower(domain) := Lookup(old(history), lower(domain)) + [now]] && clock == now
    {
      hide Sorted, Newest;
      if domain == "" {
        return;
      }
      var d := lower(domain);
      ghost var before := Lookup(history, d);
      var times := Lookup(data, d) + [now];
      TruncationsCompose(before, now);
      assert Lookup(data, d) == Newest(before) && forall x | x in before :: x <= now;
      AppendSorted(before, now);
      if |times| > MAX_STORED {
        times := times[|times| - MAX_STORED..];
      }
      assert times == Newest(Lookup(data, d) + [now]) by {
        NewestIs(Lookup(data, d) + [now]);
      }
      data := data[d := times];
      history, clock := history[d := before + [now]], now;
      forall e
        ensures Lookup(data, e) == Newest(Lookup(history, e)) && Sorted(Lookup(history, e))
        ensures forall t | t in Lookup(history, e) :: t <= clock
      {
        if e != d {
          assert Lookup(data, e) == old(Lookup(data, e)) && Lookup(history, e) == old(Lookup(history, e));
        }
      }
    }

    /** Answers as if no incident had ever been forgotten. */
    method IsThrottled(domain: Domain, now: real) returns (throttled: bool)
      requires Valid()
      ensures throttled <==> domain != "" && Throttled(Lookup(history, lower(domain)), now)
    {
      if domain == "" {
        return false;
      }
      hide Newest, Sorted, Count, Throttled;
      var times := Lookup(data, lower(domain));
      var cutoff, recent := now - WINDOW, 0;
      CountNone(times[..0], cutoff);
      for i := 0 to |times|
        invariant recent == Count(times[..i], cutoff)
      {
        CountOneMore(times, i, cutoff);
        if times[i] >= cutoff {
          recent := recent + 1;
        }
      }
      assert times[..|times|] == times;
      TruncationIsInvisible(Lookup(history, lower(domain)), now);
      ThrottledMeans(times, now);
      return recent >= THRESHOLD;
    }
  }

  lemma ThrottledMeans(times: seq<real>, now: real)
    ensures Throttled(times, now) <==> Count(times, now - WINDOW) >= THRESHOLD
  {}

  lemma CountOneMore(times: seq<real>, i: nat, cutoff: real)
    requires i < |times|
    ensures Count(times[..i + 1], cutoff) == Count(times[..i], cutoff) + (if times[i] >= cutoff then 1 else 0)
  {
    assert times[..i + 1][..i] == times[..i];
  }

  lemma CountNone(times: seq<real>, cutoff: real)
    requires times == []
    ensures Count(times, cutoff) == 0
  {}

  lemma NewestIs(times: seq<real>)
    ensures Newest(times) == if |times| > MAX_STORED then times[|times| - MAX_STORED..] else times
  {}

  lemma AppendSorted(times: seq<real>, t: real)
    requires Sorted(times) && forall x | x in times :: x <= t
    ensures Sorted(times + [t]) && forall x | x in times + [t] :: x <= t
  {
    assert forall i | 0 <= i < |times| :: times[i] in times;
  }
}
