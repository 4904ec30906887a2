/** The least-recently-used cache (primitives.py, `LRUCache`). */
module LruCaches {
  import opened Collections

  type Key = string

  /** `order` is the dictionary's own order, oldest first. */
  datatype Cache<V> = Cache(order: seq<Key>, entries: map<Key, (V, real)>)

  function Empty<V>(): Cache<V> {
    Cache([], map[])
  }

  ghost predicate Valid<V>(c: Cache<V>, maxsize: nat) {
    && Distinct(c.order) && |c.order| <= maxsize
    && forall k :: k in c.order <==> k in c.entries
  }

  function Remove(s: seq<Key>, k: Key): (r: seq<Key>)
    ensures |r| <= |s| && forall x | x in r :: x in s
  {
    if s == [] then [] else if s[0] == k then s[1..] else [s[0]] + Remove(s[1..], k)
  }

  /** `move_to_end`, or appended when new. */
  function Touch(order: seq<Key>, k: Key): seq<Key> {
    Remove(order, k) + [k]
  }

  function Suffix(s: seq<Key>, n: nat): (r: seq<Key>)
    ensures |r| <= n
  {
    if |s| <= n then s else s[|s| - n..]
  }

  function Restrict<V>(entries: map<Key, (V, real)>, keys: seq<Key>): map<Key, (V, real)> {
    map k | k in entries && k in keys :: entries[k]
  }

  function Insert<V>(c: Cache<V>, k: Key, v: V, now: real): Cache<V> {
    Cache(Touch(c.order, k), c.entries[k := (v, now)])
  }

  /** The eviction loop: the oldest entries go until the size fits. */
  function Evict<V>(c: Cache<V>, maxsize: nat): Cache<V> {
    var kept := Suffix(c.order, maxsize);
    Cache(kept, Restrict(c.entries, kept))
  }

  function AfterPut<V>(c: Cache<V>, k: Key, v: V, now: real, maxsize: nat): Cache<V> {
    Evict(Insert(c, k, v, now), maxsize)
  }

  function InsertAll<V>(c: Cache<V>, items: seq<(Key, V)>, now: real): Cache<V> {
    if items == [] then c else
    var last := items[|items| - 1];
    Insert(InsertAll(c, items[..|items| - 1], now), last.0, last.1, now)
  }

  function AfterBatch<V>(c: Cache<V>, items: seq<(Key, V)>, now: real, maxsize: nat): Cache<V> {
    Evict(InsertAll(c, items, now), maxsize)
  }

  function PutAll<V>(c: Cache<V>, items: seq<(Key, V)>, now: real, maxsize: nat): Cache<V> {
    if items == [] then c else
    var last := items[|items| - 1];
    AfterPut(PutAll(c, items[..|items| - 1], now, maxsize), last.0, last.1, now, maxsize)
  }

  function AfterInvalidate<V>(c: Cache<V>, k: Key): Cache<V> {
    Cache(Remove(c.order, k), c.entries - {k})
  }

  predicate Live<V>(c: Cache<V>, k: Key, now: real, ttl: real) {
    k in c.entries && now - c.entries[k].1 <= ttl
  }

  /** The cache after `get`: a live entry becomes the newest, an expired one goes. */
  function AfterGet<V>(c: Cache<V>, k: Key, now: real, ttl: real): Cache<V> {
    if k !in c.entries then c
    else if Live(c, k, now, ttl) then c.(order := Touch(c.order, k))
    else AfterInvalidate(c, k)
  }

  // ------------------------------------------------------------------- ordering

  lemma {:induction false} RemoveSplits(a: seq<Key>, b: seq<Key>, k: Key)
    ensures Remove(a + b, k) == if k in a then Remove(a, k) + b else a + Remove(b, k)
  {
    if a == [] {
      assert a + b == b;
    } else {
      assert (a + b)[0] == a[0] && (a + b)[1..] == a[1..] + b;
      if a[0] != k {
        RemoveSplits(a[1..], b, k);
        if k in a[1..] {
          assert k in a;
          assert [a[0]] + (Remove(a[1..], k) + b) == ([a[0]] + Remove(a[1..], k)) + b;
        } else {
          assert a == [a[0]] + a[1..];
          assert [a[0]] + (a[1..] + Remove(b, k)) == a + Remove(b, k);
        }
      }
    }
  }

  lemma {:induction false} RemoveLength(s: seq<Key>, k: Key)
    requires Distinct(s)
    ensures |Remove(s, k)| == if k in s then |s| - 1 else |s|
    ensures Distinct(Remove(s, k)) && k !in Remove(s, k)
    ensures forall x | x != k :: x in Remove(s, k) <==> x in s
  {
    if s != [] {
      assert Distinct(s[1..]);
      assert s[0] !in s[1..];
      RemoveLength(s[1..], k);
    }
  }

  lemma TouchKeepsDistinct(s: seq<Key>, k: Key)
    requires Distinct(s)
    ensures Distinct(Touch(s, k)) && forall x :: x in Touch(s, k) <==> x == k || x in s
    ensures |Touch(s, k)| == if k in s then |s| else |s| + 1
  {
    RemoveLength(s, k);
  }

  lemma SuffixAppend(a: seq<Key>, b: seq<Key>, n: nat)
    requires |b| >= n
    ensures Suffix(a + b, n) == Suffix(b, n)
  {
    assert a + b == if |b| == n then a + b else a + b[..|b| - n] + b[|b| - n..];
  }

  /** The touched key leaves the older or the newer part, and joins the newer one. */
  lemma TouchSplits(a: seq<Key>, b: seq<Key>, k: Key) returns (older: seq<Key>)
    requires k in a ==> k !in b
    ensures Touch(a + b, k) == older + Touch(b, k)
  {
    RemoveSplits(a, b, k);
    if k in a {
      RemoveAbsent(b, k);
      older := Remove(a, k);
    } else {
      older := a;
    }
    assert older + Touch(b, k) == older + Remove(b, k) + [k];
  }

  /** Evicting early or late keeps the same newest keys. */
  lemma EvictionCommutes(s: seq<Key>, k: Key, n: nat)
    requires Distinct(s)
    ensures Suffix(Touch(Suffix(s, n), k), n) == Suffix(Touch(s, k), n)
  {
    if |s| > n {
      var a, b := s[..|s| - n], s[|s| - n..];
      assert s == a + b;
      PartsDistinct(s, |s| - n);
      TouchKeepsDistinct(b, k);
      hide Touch, Distinct;
      var older := TouchSplits(a, b, k);
      SuffixAppend(older, Touch(b, k), n);
    }
  }

  lemma PartsDistinct(s: seq<Key>, i: nat)
    requires Distinct(s) && i <= |s|
    ensures Distinct(s[i..]) && forall k | k in s[..i] :: k !in s[i..]
  {}

  lemma {:induction false} RemoveAbsent(s: seq<Key>, k: Key)
    requires k !in s
    ensures Remove(s, k) == s
  {
    if s != [] {
      RemoveAbsent(s[1..], k);
    }
  }

  // --------------------------------------------------------- puts, gets and batches

  lemma PutKeepsValid<V>(c: Cache<V>, k: Key, v: V, now: real, maxsize: nat)
    requires Valid(c, maxsize)
    ensures Valid(AfterPut(c, k, v, now, maxsize), maxsize)
    ensures forall x | x in AfterPut(c, k, v, now, maxsize).entries ::
              AfterPut(c, k, v, now, maxsize).entries[x] == if x == k then (v, now) else c.entries[x]
  {
    TouchKeepsDistinct(c.order, k);
  }

  lemma GetKeepsValid<V>(c: Cache<V>, k: Key, now: real, ttl: real, maxsize: nat)
    requires Valid(c, maxsize)
    ensures Valid(AfterGet(c, k, now, ttl), maxsize)
    ensures forall x | x in AfterGet(c, k, now, ttl).entries :: x in c.entries
              && AfterGet(c, k, now, ttl).entries[x] == c.entries[x]
  {
    TouchKeepsDistinct(c.order, k);
    RemoveLength(c.order, k);
  }

  lemma InvalidateKeepsValid<V>(c: Cache<V>, k: Key, maxsize: nat)
    requires Valid(c, maxsize)
    ensures Valid(AfterInvalidate(c, k), maxsize)
  {
    RemoveLength(c.order, k);
  }

  /** A batch leaves exactly what putting its items one by one leaves. */
  lemma {:induction false} BatchIsPuts<V>(c: Cache<V>, items: seq<(Key, V)>, now: real, maxsize: nat)
    requires Valid(c, maxsize)
    ensures AfterBatch(c, items, now, maxsize) == PutAll(c, items, now, maxsize)
    ensures Distinct(InsertAll(c, items, now).order)
    ensures forall k :: k in InsertAll(c, items, now).order <==> k in InsertAll(c, items, now).entries
    decreases |items|
  {
    if items == [] {
      assert Restrict(c.entries, c.order) == c.entries;
    } else {
      var last, before := items[|items| - 1], items[..|items| - 1];
      BatchIsPuts(c, before, now, maxsize);
      var all := InsertAll(c, before, now);
      InsertEvicted(all, last.0, last.1, now, maxsize);
      TouchKeepsDistinct(all.order, last.0);
    }
  }

  lemma InsertEvicted<V>(c: Cache<V>, k: Key, v: V, now: real, maxsize: nat)
    requires Distinct(c.order) && forall x :: x in c.order <==> x in c.entries
    ensures AfterPut(Evict(c, maxsize), k, v, now, maxsize) == Evict(Insert(c, k, v, now), maxsize)
  {
    EvictionCommutes(c.order, k, maxsize);
    var kept := Suffix(c.order, maxsize);
    SuffixIsPart(c.order, maxsize);
    TouchKeepsDistinct(kept, k);
    TouchKeepsDistinct(c.order, k);
    SuffixIsPart(Touch(c.order, k), maxsize);
    SuffixIsPart(Touch(kept, k), maxsize);
    SameEntries(c, k, v, now, maxsize);
  }

  lemma SameEntries<V>(c: Cache<V>, k: Key, v: V, now: real, n: nat)
    requires var kept, last := Suffix(c.order, n), Suffix(Touch(c.order, k), n);
             && Suffix(Touch(kept, k), n) == last
             && forall x | x in last :: (x == k || x in kept) && (x == k || x in c.entries)
    ensures AfterPut(Evict(c, n), k, v, now, n).entries == Evict(Insert(c, k, v, now), n).entries
  {
    hide Suffix, Touch;
  }

  lemma SuffixIsPart(s: seq<Key>, n: nat)
    ensures forall x | x in Suffix(s, n) :: x in s
    ensures Distinct(s) ==> Distinct(Suffix(s, n))
  {}

  // -------------------------------------------------- what the cache holds, and why

  datatype Op<V> = DoPut(key: Key, value: V, now: real) | DoBatch(items: seq<(Key, V)>, now: real) | DoGet(key: Key)

  /** One operation, none of whose entries expire. */
  function Apply<V>(c: Cache<V>, op: Op<V>, maxsize: nat): Cache<V> {
    match op
    case DoPut(k, v, now) => AfterPut(c, k, v, now, maxsize)
    case DoBatch(items, now) => AfterBatch(c, items, now, maxsize)
    case DoGet(k) => if k in c.entries then c.(order := Touch(c.order, k)) else c
  }

  function Keys<V>(items: seq<(Key, V)>): seq<Key> {
    seq(|items|, i requires 0 <= i < |items| => items[i].0)
  }

  /** The keys an operation touches: those it stores, and one it finds. */
  function Touched<V>(c: Cache<V>, op: Op<V>): seq<Key> {
    match op
    case DoPut(k, _, _) => [k]
    case DoBatch(items, _) => Keys(items)
    case DoGet(k) => if k in c.entries then [k] else []
  }

  function Run<V>(ops: seq<Op<V>>, maxsize: nat): Cache<V> {
    if ops == [] then Empty() else Apply(Run(ops[..|ops| - 1], maxsize), ops[|ops| - 1], maxsize)
  }

  function History<V>(ops: seq<Op<V>>, maxsize: nat): seq<Key> {
    if ops == [] then [] else
    var before := ops[..|ops| - 1];
    History(before, maxsize) + Touched(Run(before, maxsize), ops[|ops| - 1])
  }

  /** The index after a key's last occurrence; 0 when it never occurs. */
  function LastUse(history: seq<Key>, k: Key): (n: nat)
    ensures n <= |history| && (n > 0 <==> k in history) && (n > 0 ==> history[n - 1] == k)
  {
    if history == [] then 0
    else if history[|history| - 1] == k then |history|
    else LastUse(history[..|history| - 1], k)
  }

  /** `order` lists the `n` keys used last, least recent first. */
  ghost predicate MostRecent(order: seq<Key>, history: seq<Key>, n: nat) {
    && |order| <= n
    && (forall k | k in order :: k in history)
    && ByUse(order, history)
    && (forall k | k in history && k !in order :: |order| == n)
    && (forall k, x | k in history && k !in order && x in order :: LastUse(history, k) < LastUse(history, x))
  }

  predicate ByUse(order: seq<Key>, history: seq<Key>) {
    forall i, j | 0 <= i < j < |order| :: LastUse(history, order[i]) < LastUse(history, order[j])
  }

  lemma OneMoreUse(history: seq<Key>, k: Key, x: Key)
    ensures LastUse(history + [k], x) == if x == k then |history| + 1 else LastUse(history, x)
  {
    assert (history + [k])[..|history|] == history;
  }

  lemma {:induction false} RemoveKeepsSorted(s: seq<Key>, history: seq<Key>, k: Key)
    requires ByUse(s, history)
    ensures ByUse(Remove(s, k), history)
  {
    if s != [] {
      assert ByUse(s[1..], history);
      forall x | x in s[1..] ensures LastUse(history, s[0]) < LastUse(history, x) {
        var i :| 0 <= i < |s[1..]| && s[1..][i] == x;
        assert s[i + 1] == x;
      }
      if s[0] != k {
        RemoveKeepsSorted(s[1..], history, k);
        var r := Remove(s[1..], k);
        forall i, j | 0 <= i < j < |r| + 1
          ensures LastUse(history, ([s[0]] + r)[i]) < LastUse(history, ([s[0]] + r)[j])
        {
          assert r[j - 1] in r;
        }
      }
    }
  }

  lemma TouchSorted(order: seq<Key>, history: seq<Key>, k: Key)
    requires Distinct(order) && ByUse(order, history)
    ensures ByUse(Touch(order, k), history + [k])
  {
    var r := Remove(order, k);
    RemoveKeepsSorted(order, history, k);
    RemoveLength(order, k);
    OneMoreUse(history, k, k);
    forall x | x in r ensures LastUse(history + [k], x) == LastUse(history, x) <= |history| {
      OneMoreUse(history, k, x);
    }
    hide Distinct, LastUse;
    assert forall i | 0 <= i < |r| :: r[i] in r;
  }

  lemma SortedIsDistinct(order: seq<Key>, history: seq<Key>)
    requires ByUse(order, history)
    ensures Distinct(order)
  {}

  lemma SuffixSorted(s: seq<Key>, history: seq<Key>, n: nat)
    requires ByUse(s, history)
    ensures ByUse(Suffix(s, n), history)
    ensures forall x, y | x in s && x !in Suffix(s, n) && y in Suffix(s, n) ::
              |Suffix(s, n)| == n && LastUse(history, x) < LastUse(history, y)
  {
    hide LastUse;
    var kept := Suffix(s, n);
    var d := |s| - |kept|;
    assert forall i | 0 <= i < |kept| :: kept[i] == s[d + i];
    assert forall i | d <= i < |s| :: s[i] == kept[i - d];
    forall x, y | x in s && x !in kept && y in kept ensures |kept| == n && LastUse(history, x) < LastUse(history, y) {
      var p :| 0 <= p < |s| && s[p] == x;
      var q :| 0 <= q < |kept| && kept[q] == y;
    }
  }

  lemma MostRecentMeans(order: seq<Key>, history: seq<Key>, n: nat)
    requires MostRecent(order, history, n)
    ensures Distinct(order) && ByUse(order, history) && |order| <= n
    ensures forall k | k in order :: k in history
  {
    SortedIsDistinct(order, history);
  }

  /** Touching a key and evicting the oldest keeps the newest keys. */
  lemma TouchKeepsMostRecent(order: seq<Key>, history: seq<Key>, n: nat, k: Key)
    requires MostRecent(order, history, n)
    ensures MostRecent(Suffix(Touch(order, k), n), history + [k], n)
  {
    hide Distinct, ByUse, Suffix, Touch, LastUse;
    MostRecentMeans(order, history, n);
    var touched, after := Touch(order, k), history + [k];
    var kept := Suffix(touched, n);
    TouchKeepsDistinct(order, k);
    TouchSorted(order, history, k);
    SuffixSorted(touched, after, n);
    SuffixIsPart(touched, n);
    forall x, y | x in after && x !in kept && y in kept ensures LastUse(after, x) < LastUse(after, y) {
      OneMoreUse(history, k, x);
      OneMoreUse(history, k, y);
      InHistory(after, x);
      if x !in touched {
        assert x in history && x !in order;
        InHistory(history, x);
      }
    }
    forall x | x in after && x !in kept ensures |kept| == n {
      DroppedOnlyWhenFull(order, k, n, x);
    }
  }

  lemma InHistory(history: seq<Key>, x: Key)
    ensures LastUse(history, x) <= |history|
  {}

  lemma DroppedOnlyWhenFull(order: seq<Key>, k: Key, n: nat, x: Key)
    requires Distinct(order) && (x in order || x == k || |order| == n) && x !in Suffix(Touch(order, k), n)
    ensures |Suffix(Touch(order, k), n)| == n
  {
    TouchKeepsDistinct(order, k);
  }

  lemma {:induction false} PutsKeepMostRecent<V>(c: Cache<V>, items: seq<(Key, V)>, now: real, history: seq<Key>,
      n: nat)
    requires Valid(c, n) && MostRecent(c.order, history, n)
    ensures Valid(PutAll(c, items, now, n), n) && MostRecent(PutAll(c, items, now, n).order, history + Keys(items), n)
    decreases |items|
  {
    hide Valid, MostRecent, Touch, Suffix;
    if items == [] {
      assert history + Keys(items) == history;
    } else {
      var last, before := items[|items| - 1], items[..|items| - 1];
      PutsKeepMostRecent(c, before, now, history, n);
      var mid := PutAll(c, before, now, n);
      PutKeepsValid(mid, last.0, last.1, now, n);
      TouchKeepsMostRecent(mid.order, history + Keys(before), n, last.0);
      assert history + Keys(items) == history + Keys(before) + [last.0];
    }
  }

  /** After any puts, batches and gets without expiry the cache holds exactly the
      `maxsize` keys used last, in the order of their last use. */
  lemma {:induction false} HoldsTheMostRecent<V>(ops: seq<Op<V>>, maxsize: nat)
    ensures Valid(Run(ops, maxsize), maxsize)
    ensures MostRecent(Run(ops, maxsize).order, History(ops, maxsize), maxsize)
    decreases |ops|
  {
    if ops != [] {
      var before, op := ops[..|ops| - 1], ops[|ops| - 1];
      HoldsTheMostRecent(before, maxsize);
      ApplyKeepsMostRecent(Run(before, maxsize), op, History(before, maxsize), maxsize);
    }
  }

  lemma ApplyKeepsMostRecent<V>(c: Cache<V>, op: Op<V>, history: seq<Key>, n: nat)
    requires Valid(c, n) && MostRecent(c.order, history, n)
    ensures Valid(Apply(c, op, n), n) && MostRecent(Apply(c, op, n).order, history + Touched(c, op), n)
  {
    hide MostRecent, Valid;
    match op
    case DoPut(k, v, now) =>
      PutKeepsValid(c, k, v, now, n);
      TouchKeepsMostRecent(c.order, history, n, k);
    case DoBatch(items, now) =>
      BatchIsPuts(c, items, now, n);
      PutsKeepMostRecent(c, items, now, history, n);
    case DoGet(k) =>
      if k in c.entries {
        TouchKeepsMostRecent(c.order, history, n, k);
        TouchPresent(c, k, n);
      } else {
        assert history + [] == history;
      }
  }

  lemma TouchPresent<V>(c: Cache<V>, k: Key, n: nat)
    requires Valid(c, n) && k in c.entries
    ensures Valid(c.(order := Touch(c.order, k)), n) && Suffix(Touch(c.order, k), n) == Touch(c.order, k)
  {
    TouchKeepsDistinct(c.order, k);
  }

  /** What was stored last under a key, and when. */
  function Stored<V>(op: Op<V>, k: Key, before: Option<(V, real)>): Option<(V, real)> {
    match op
    case DoPut(key, v, now) => if key == k then Some((v, now)) else before
    case DoBatch(items, now) => LastItem(items, k, now, before)
    case DoGet(_) => before
  }

  function LastItem<V>(items: seq<(Key, V)>, k: Key, now: real, before: Option<(V, real)>): Option<(V, real)> {
    if items == [] then before else
    var last := items[|items| - 1];
    if last.0 == k then Some((last.1, now)) else LastItem(items[..|items| - 1], k, now, before)
  }

  function LastStored<V>(ops: seq<Op<V>>, k: Key): Option<(V, real)> {
    if ops == [] then None else Stored(ops[|ops| - 1], k, LastStored(ops[..|ops| - 1], k))
  }

  lemma {:induction false} InsertedLast<V>(c: Cache<V>, items: seq<(Key, V)>, now: real, k: Key,
                                           before: Option<(V, real)>)
    requires k in c.entries ==> before == Some(c.entries[k])
    ensures var after := InsertAll(c, items, now);
            k in after.entries ==> LastItem(items, k, now, before) == Some(after.entries[k])
    decreases |items|
  {
    if items != [] {
      InsertedLast(c, items[..|items| - 1], now, k, before);
    }
  }

  /** Every entry is what was stored last under its key, with the time of that. */
  lemma {:induction false} HoldsTheLastStored<V>(ops: seq<Op<V>>, maxsize: nat, k: Key)
    ensures k in Run(ops, maxsize).entries ==> LastStored(ops, k) == Some(Run(ops, maxsize).entries[k])
    decreases |ops|
  {
    if ops != [] {
      hide Touch, Suffix;
      var before, op := ops[..|ops| - 1], ops[|ops| - 1];
      HoldsTheLastStored(before, maxsize, k);
      if op.DoBatch? {
        InsertedLast(Run(before, maxsize), op.items, op.now, k, LastStored(before, k));
      }
    }
  }

  // ------------------------------------------------------------------- the class

  class LRUCache<V(0)> {
    const maxsize: nat
    const ttl: real
    var order: seq<Key>
    var entries: map<Key, (V, real)>
    var evictions: nat

    ghost function View(): Cache<V>
      reads this
    {
      Cache(order, entries)
    }

    ghost predicate Sound()
      reads this
    {
      Valid(View(), maxsize)
    }

    constructor (maxsize: nat, ttl: real)
      ensures Sound() && View() == Empty() && this.maxsize == maxsize && this.ttl == ttl
    {
      this.maxsize, this.ttl := maxsize, ttl;
      order, entries, evictions := [], map[], 0;
    }

    method Get(key: Key, now: real) returns (value: Option<V>)
      requires Sound()
      modifies this
      ensures Sound() && View() == AfterGet(old(View()), key, now, ttl)
      ensures value == if key in old(entries) && now - old(entries)[key].1 <= ttl
                       then Some(old(entries)[key].0) else None
    {
      GetKeepsValid(View(), key, now, ttl, maxsize);
      if key !in entries {
        return None;
      }
      var (found, stamp) := entries[key];
      if now - stamp > ttl {
        order, entries := Remove(order, key), entries - {key};
        evictions := evictions + 1;
        return None;
      }
      order := Touch(order, key);
      return Some(found);
    }

    method Put(key: Key, value: V, now: real)
      requires Sound()
      modifies this
      ensures Sound() && View() == AfterPut(old(View()), key, value, now, maxsize)
    {
      PutKeepsValid(View(), key, value, now, maxsize);
      TouchKeepsDistinct(order, key);
      order, entries := Touch(order, key), entries[key := (value, now)];
      EvictOldest();
    }

    method PutBatch(items: seq<(Key, V)>, now: real)
      requires Sound()
      modifies this
      ensures Sound() && View() == AfterBatch(old(View()), items, now, maxsize)
    {
      hide Distinct, Insert;
      ghost var before := View();
      for i := 0 to |items|
        invariant View() == InsertAll(before, items[..i], now)
      {
        assert items[..i + 1][..i] == items[..i];
        order, entries := Touch(order, items[i].0), entries[items[i].0 := (items[i].1, now)];
        assert View() == Insert(InsertAll(before, items[..i], now), items[i].0, items[i].1, now) by {
          InsertIs(InsertAll(before, items[..i], now), items[i].0, items[i].1, now);
        }
      }
      assert items[..|items|] == items;
      BatchIsPuts(before, items, now, maxsize);
      EvictOldest();
    }

    /** The loop at the end of a put. */
    method EvictOldest()
      requires Distinct(order) && SameKeys(View())
      modifies this
      ensures Sound() && View() == Evict(old(View()), maxsize)
    {
      hide Distinct, SameKeys, Evict;
      while |order| > maxsize
        invariant Distinct(order) && SameKeys(View())
        invariant Evict(View(), maxsize) == Evict(old(View()), maxsize)
        decreases |order|
      {
        DropOldest(View(), maxsize);
        order, entries := order[1..], entries - {order[0]};
        evictions := evictions + 1;
      }
      NothingToEvict(View(), maxsize);
    }

    method Invalidate(key: Key)
      requires Sound()
      modifies this
      ensures Sound() && View() == AfterInvalidate(old(View()), key)
    {
      InvalidateKeepsValid(View(), key, maxsize);
      if key in entries {
        order, entries := Remove(order, key), entries - {key};
      } else {
        RemoveAbsent(order, key);
      }
    }
  }

  lemma InsertIs<V>(c: Cache<V>, k: Key, v: V, now: real)
    ensures Insert(c, k, v, now) == Cache(Touch(c.order, k), c.entries[k := (v, now)])
  {}

  ghost predicate SameKeys<V>(c: Cache<V>) {
    forall k :: k in c.order <==> k in c.entries
  }

  lemma DropOldest<V>(c: Cache<V>, n: nat)
    requires Distinct(c.order) && SameKeys(c) && |c.order| > n
    ensures var rest := Cache(c.order[1..], c.entries - {c.order[0]});
            Distinct(rest.order) && SameKeys(rest) && Evict(rest, n) == Evict(c, n)
  {
    var rest := Cache(c.order[1..], c.entries - {c.order[0]});
    PartsDistinct(c.order, 1);
    OldestIsAlone(c.order);
    hide Distinct, Suffix, Restrict;
    assert c.order == [c.order[0]] + rest.order;
    SuffixAppend([c.order[0]], rest.order, n);
    SuffixIsPart(rest.order, n);
    RestrictWithout(c.entries, c.order[0], Suffix(rest.order, n));
  }

  lemma RestrictWithout<V>(entries: map<Key, (V, real)>, k: Key, keys: seq<Key>)
    requires k !in keys
    ensures Restrict(entries - {k}, keys) == Restrict(entries, keys)
  {}

  lemma OldestIsAlone(s: seq<Key>)
    requires Distinct(s) && s != []
    ensures s[0] !in s[1..] && forall k :: k in s <==> k == s[0] || k in s[1..]
  {
    assert s == [s[0]] + s[1..];
  }

  lemma NothingToEvict<V>(c: Cache<V>, n: nat)
    requires Distinct(c.order) && SameKeys(c) && |c.order| <= n
    ensures Evict(c, n) == c && Valid(c, n)
  {}
}
