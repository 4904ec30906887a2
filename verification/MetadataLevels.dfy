/** One path of the two-level file-metadata cache under any number of threads
    (cache.py, `CacheManager`). The levels have a lock each, so every call is two
    critical sections, and other calls run in between. */
module MetadataLevels {
  import opened Collections

  /** A record; `updated` is `None` when its time is missing or unreadable. */
  datatype Record = Record(etag: Option<string>, mtime: real, size: int, sha256: Option<string>, updated: Option<real>)

  predicate Recent(r: Record, now: real, maxAge: real) {
    r.updated.Some? && now - r.updated.value <= maxAge
  }

  /** The path's record in the least-recently-used cache and in the table behind it. */
  datatype Levels = Levels(lru: Option<Record>, table: Option<Record>)

  /** What a lookup decides, under the table's lock, about the record it found. */
  datatype Verdict = Nothing | Keep(record: Record) | Drop

  function Judge(l: Levels, seen: Option<Record>, now: real, maxAge: real): Verdict {
    var metadata := if seen.Some? then seen else l.table;
    if metadata.None? then Nothing else if Recent(metadata.value, now, maxAge) then Keep(metadata.value) else Drop
  }

  /** What a level holds after entries of it were dropped. */
  predicate Fewer(l: Levels, l': Levels) {
    (l'.lru.None? || l'.lru == l.lru) && (l'.table.None? || l'.table == l.table)
  }

  // ------------------------------------------------------------- calls in progress

  datatype Kind = Get | Save | Cleanup

  /** A call between its critical sections. The phases `Keeping`, `Dropping` and
      `Sweeping` hold the table's lock while they wait for the cache's. */
  datatype Phase =
    | Peeked(seen: Option<Record>)
    | Keeping(record: Record)
    | Dropping
    | Saving(data: Record)
    | Cleaning
    | Sweeping

  function KindOf(phase: Phase): Kind {
    match phase
    case Saving(_) => Save
    case Cleaning => Cleanup
    case Sweeping => Cleanup
    case _ => Get
  }

  predicate HoldsLock(phase: Phase) {
    phase.Keeping? || phase.Dropping? || phase.Sweeping?
  }

  /** `latest` is the record of the latest save since the last cleanup: a save
      counts from its table store, a cleanup from its first critical section.
      `disturbed` are the calls that overlapped a save or a cleanup. */
  datatype World = World(
    levels: Levels, calls: map<nat, Phase>, lock: Option<nat>, latest: Option<Record>, disturbed: set<nat>)

  datatype Event =
    | Peek(t: nat, live: bool)
    | Decide(t: nat, now: real)
    | Put(t: nat)
    | Invalidate(t: nat)
    | SaveLru(t: nat, data: Record)
    | SaveTable(t: nat)
    | CleanLru(t: nat)
    | CleanTable(t: nat)
    | SweepTable(t: nat)
    | SweepLru(t: nat)
    | EvictLru
    | TrimTable

  /** Which kinds of calls for the path may overlap. */
  datatype Discipline = Discipline(
    getGet: bool, getSave: bool, getCleanup: bool, saveSave: bool, saveCleanup: bool, cleanupCleanup: bool)

  predicate Allows(d: Discipline, a: Kind, b: Kind) {
    match (a, b)
    case (Get, Get) => d.getGet
    case (Save, Save) => d.saveSave
    case (Cleanup, Cleanup) => d.cleanupCleanup
    case (Get, Save) => d.getSave
    case (Save, Get) => d.getSave
    case (Get, Cleanup) => d.getCleanup
    case (Cleanup, Get) => d.getCleanup
    case (Save, Cleanup) => d.saveCleanup
    case (Cleanup, Save) => d.saveCleanup
  }

  /** A call of this kind may begin now. */
  predicate MayBegin(d: Discipline, w: World, t: nat, kind: Kind) {
    t !in w.calls && forall u | u in w.calls :: Allows(d, kind, KindOf(w.calls[u]))
  }

  predicate Enabled(d: Discipline, w: World, e: Event) {
    match e
    case Peek(t, live) => MayBegin(d, w, t, Get)
    case Decide(t, _) => t in w.calls && w.calls[t].Peeked? && w.lock.None?
    case Put(t) => t in w.calls && w.calls[t].Keeping?
    case Invalidate(t) => t in w.calls && w.calls[t].Dropping?
    case SaveLru(t, _) => MayBegin(d, w, t, Save)
    case SaveTable(t) => t in w.calls && w.calls[t].Saving? && w.lock.None?
    case CleanLru(t) => MayBegin(d, w, t, Cleanup)
    case CleanTable(t) => t in w.calls && w.calls[t].Cleaning? && w.lock.None?
    case SweepTable(t) => MayBegin(d, w, t, Cleanup) && w.lock.None? && w.levels.table.Some?
    case SweepLru(t) => t in w.calls && w.calls[t].Sweeping?
    case EvictLru => true
    case TrimTable => w.lock.None?
  }

  predicate Writing(w: World) {
    exists u :: u in w.calls && !KindOf(w.calls[u]).Get?
  }

  function Ended(w: World, t: nat, l: Levels): World {
    w.(levels := l, calls := w.calls - {t}, lock := if w.lock == Some(t) then None else w.lock)
  }

  /** A save or a cleanup begins: it disturbs every call in progress. */
  function Disturb(w: World, t: nat, phase: Phase): World {
    w.(calls := w.calls[t := phase], disturbed := w.disturbed + w.calls.Keys)
  }

  ghost function Apply(d: Discipline, maxAge: real, w: World, e: Event): World
    requires Enabled(d, w, e)
  {
    var l := w.levels;
    match e
    case Peek(t, live) =>
      w.(levels := if live then l else l.(lru := None),
         calls := w.calls[t := Peeked(if live then l.lru else None)],
         disturbed := if Writing(w) then w.disturbed + {t} else w.disturbed - {t})
    case Decide(t, now) =>
      (match Judge(l, w.calls[t].seen, now, maxAge)
       case Nothing => Ended(w, t, l)
       case Keep(r) => w.(calls := w.calls[t := Keeping(r)], lock := Some(t))
       case Drop => w.(levels := l.(table := None), calls := w.calls[t := Dropping], lock := Some(t)))
    case Put(t) => Ended(w, t, l.(lru := Some(w.calls[t].record)))
    case Invalidate(t) => Ended(w, t, l.(lru := None))
    case SaveLru(t, data) => Disturb(w, t, Saving(data)).(levels := l.(lru := Some(data)))
    case SaveTable(t) => Ended(w, t, l.(table := Some(w.calls[t].data))).(latest := Some(w.calls[t].data))
    case CleanLru(t) => Disturb(w, t, Cleaning).(levels := l.(lru := None), latest := None)
    case CleanTable(t) => Ended(w, t, l.(table := None))
    case SweepTable(t) => Disturb(w, t, Sweeping).(levels := l.(table := None), latest := None, lock := Some(t))
    case SweepLru(t) => Ended(w, t, l.(lru := None))
    case EvictLru => w.(levels := l.(lru := None))
    case TrimTable => w.(levels := l.(table := None))
  }

  /** A lookup returns a record only by `Put`. One that overlapped no save and no
      cleanup must return the latest. */
  predicate Current(w: World, e: Event) {
    e.Put? && e.t in w.calls && w.calls[e.t].Keeping? && e.t !in w.disturbed ==> w.latest == Some(w.calls[e.t].record)
  }

  ghost predicate Runs(d: Discipline, maxAge: real, w: World, es: seq<Event>)
    decreases |es|
  {
    es == [] || (Enabled(d, w, es[0]) && Runs(d, maxAge, Apply(d, maxAge, w, es[0]), es[1..]))
  }

  ghost predicate AllCurrent(d: Discipline, maxAge: real, w: World, es: seq<Event>)
    requires Runs(d, maxAge, w, es)
    decreases |es|
  {
    es == [] || (Current(w, es[0]) && AllCurrent(d, maxAge, Apply(d, maxAge, w, es[0]), es[1..]))
  }

  /** The path as it was loaded with the cache, or absent. */
  function Start(loaded: Option<Record>): World {
    World(Levels(loaded, loaded), map[], None, loaded, {})
  }

  ghost predicate Reliable(d: Discipline, maxAge: real) {
    forall loaded, es | Runs(d, maxAge, Start(loaded), es) :: AllCurrent(d, maxAge, Start(loaded), es)
  }

  // -------------------------------------------------------- where it is reliable

  /** No lookup straddles a save or a cleanup, and saves do not straddle each other. */
  predicate Careful(d: Discipline) {
    !d.getSave && !d.getCleanup && !d.saveSave
  }

  predicate NoneOr(r: Option<Record>, s: Option<Record>) {
    r.None? || r == s
  }

  predicate At(w: World, t: nat, phase: Phase) {
    t in w.calls && w.calls[t] == phase
  }

  predicate CallsOk(w: World) {
    && (forall t | t in w.calls && HoldsLock(w.calls[t]) :: w.lock == Some(t))
    && (forall t, u | t in w.calls && u in w.calls && KindOf(w.calls[t]).Get? :: KindOf(w.calls[u]).Get?)
    && (forall t, u | t in w.calls && u in w.calls && w.calls[t].Saving? && w.calls[u].Saving? :: t == u)
  }

  predicate GetsOk(w: World) {
    forall t | t in w.calls ::
      && (w.calls[t].Peeked? ==> NoneOr(w.calls[t].seen, w.latest))
      && (w.calls[t].Keeping? ==> w.latest == Some(w.calls[t].record))
  }

  /** The table is only behind while a cleanup has yet to reach it. */
  ghost predicate TableOk(w: World) {
    NoneOr(w.levels.table, w.latest) || exists t :: At(w, t, Cleaning)
  }

  /** The cache is only ahead by the save in progress, or behind during a sweep. */
  ghost predicate LruOk(w: World) {
    || (exists t :: At(w, t, Sweeping))
    || (&& (forall t | t in w.calls && w.calls[t].Saving? :: NoneOr(w.levels.lru, Some(w.calls[t].data)))
        && ((forall t | t in w.calls :: !w.calls[t].Saving?) ==> NoneOr(w.levels.lru, w.latest)))
  }

  ghost predicate Inv(w: World) {
    CallsOk(w) && GetsOk(w) && TableOk(w) && LruOk(w)
  }

  /** With a lookup in progress nothing is being written, so both levels are current. */
  lemma GetsAlone(w: World, t: nat)
    requires Inv(w) && t in w.calls && KindOf(w.calls[t]).Get?
    ensures forall u | u in w.calls :: KindOf(w.calls[u]).Get?
    ensures NoneOr(w.levels.table, w.latest) && NoneOr(w.levels.lru, w.latest)
  {}

  lemma PeekKeepsInv(d: Discipline, maxAge: real, w: World, t: nat, live: bool)
    requires Careful(d) && Inv(w) && Enabled(d, w, Peek(t, live))
    ensures Inv(Apply(d, maxAge, w, Peek(t, live)))
  {
    forall u | u in w.calls ensures KindOf(w.calls[u]).Get? {
      assert Allows(d, Get, KindOf(w.calls[u]));
    }
  }

  lemma DecideKeepsInv(d: Discipline, maxAge: real, w: World, t: nat, now: real)
    requires Inv(w) && Enabled(d, w, Decide(t, now))
    ensures Inv(Apply(d, maxAge, w, Decide(t, now)))
  {
    GetsAlone(w, t);
    hide TableOk, LruOk;
    var w' := Apply(d, maxAge, w, Decide(t, now));
    assert forall u | u in w'.calls :: KindOf(w'.calls[u]).Get?;
    OnlyGets(w');
  }

  lemma OnlyGets(w: World)
    requires forall u | u in w.calls :: KindOf(w.calls[u]).Get?
    requires NoneOr(w.levels.table, w.latest) && NoneOr(w.levels.lru, w.latest)
    ensures TableOk(w) && LruOk(w)
  {}

  lemma FinishKeepsInv(d: Discipline, maxAge: real, w: World, e: Event)
    requires Inv(w) && Enabled(d, w, e) && (e.Put? || e.Invalidate?)
    ensures Inv(Apply(d, maxAge, w, e))
  {
    GetsAlone(w, e.t);
  }

  /** A call other than `t` is where it was, so it still explains the levels. */
  lemma Witnesses(w: World, w': World, t: nat)
    requires forall u | u in w.calls && u != t :: u in w'.calls && w'.calls[u] == w.calls[u]
    ensures forall u, phase | At(w, u, phase) && u != t :: At(w', u, phase)
  {}

  lemma NoneInTheWay(d: Discipline, w: World, t: nat, kind: Kind)
    requires Careful(d) && MayBegin(d, w, t, kind) && !kind.Get?
    ensures forall u | u in w.calls :: !KindOf(w.calls[u]).Get? && (kind.Save? ==> !w.calls[u].Saving?)
  {
    forall u | u in w.calls ensures !KindOf(w.calls[u]).Get? && (kind.Save? ==> !w.calls[u].Saving?) {
      assert Allows(d, kind, KindOf(w.calls[u]));
    }
  }

  lemma SaveKeepsInv(d: Discipline, maxAge: real, w: World, t: nat, data: Record)
    requires Careful(d) && Inv(w) && Enabled(d, w, SaveLru(t, data))
    ensures Inv(Apply(d, maxAge, w, SaveLru(t, data)))
  {
    NoneInTheWay(d, w, t, Save);
    var w' := Apply(d, maxAge, w, SaveLru(t, data));
    Witnesses(w, w', t);
    assert forall u, phase | At(w, u, phase) :: u != t;
    assert At(w', t, Saving(data));
  }

  lemma CleanupKeepsInv(d: Discipline, maxAge: real, w: World, t: nat)
    requires Careful(d) && Inv(w) && Enabled(d, w, CleanLru(t))
    ensures Inv(Apply(d, maxAge, w, CleanLru(t)))
  {
    NoneInTheWay(d, w, t, Cleanup);
    assert At(Apply(d, maxAge, w, CleanLru(t)), t, Cleaning);
  }

  lemma SweepKeepsInv(d: Discipline, maxAge: real, w: World, t: nat)
    requires Careful(d) && Inv(w) && Enabled(d, w, SweepTable(t))
    ensures Inv(Apply(d, maxAge, w, SweepTable(t)))
  {
    NoneInTheWay(d, w, t, Cleanup);
    assert At(Apply(d, maxAge, w, SweepTable(t)), t, Sweeping);
  }

  lemma NobodySweeps(w: World)
    requires CallsOk(w) && w.lock.None?
    ensures forall t :: !At(w, t, Sweeping)
  {
    forall t | t in w.calls ensures !w.calls[t].Sweeping? {
      assert HoldsLock(w.calls[t]) ==> w.lock == Some(t);
    }
  }

  lemma StoreKeepsInv(d: Discipline, maxAge: real, w: World, t: nat)
    requires Inv(w) && Enabled(d, w, SaveTable(t))
    ensures Inv(Apply(d, maxAge, w, SaveTable(t)))
  {
    NobodySweeps(w);
  }

  lemma CleanKeepsInv(d: Discipline, maxAge: real, w: World, e: Event)
    requires Inv(w) && Enabled(d, w, e) && (e.CleanTable? || e.SweepLru?)
    ensures Inv(Apply(d, maxAge, w, e))
  {
    Witnesses(w, Apply(d, maxAge, w, e), e.t);
    if e.CleanTable? {
      NobodySweeps(w);
    }
  }

  lemma DropKeepsInv(d: Discipline, maxAge: real, w: World, e: Event)
    requires Inv(w) && Enabled(d, w, e) && (e.EvictLru? || e.TrimTable?)
    ensures Inv(Apply(d, maxAge, w, e))
  {
    var w' := Apply(d, maxAge, w, e);
    assert forall u, phase | At(w, u, phase) :: At(w', u, phase);
  }

  /** Every critical section of every thread keeps the levels in order, and
      lookups return the latest record, as long as the discipline is careful. */
  lemma StepKeepsInv(d: Discipline, maxAge: real, w: World, e: Event)
    requires Careful(d) && Inv(w) && Enabled(d, w, e)
    ensures Inv(Apply(d, maxAge, w, e)) && Current(w, e)
  {
    hide CallsOk, TableOk, LruOk, Apply;
    match e
    case Peek(t, live) => PeekKeepsInv(d, maxAge, w, t, live);
    case Decide(t, now) => DecideKeepsInv(d, maxAge, w, t, now);
    case SaveTable(t) => StoreKeepsInv(d, maxAge, w, t);
    case Put(_) => FinishKeepsInv(d, maxAge, w, e);
    case Invalidate(_) => FinishKeepsInv(d, maxAge, w, e);
    case SaveLru(t, data) => SaveKeepsInv(d, maxAge, w, t, data);
    case CleanLru(t) => CleanupKeepsInv(d, maxAge, w, t);
    case SweepTable(t) => SweepKeepsInv(d, maxAge, w, t);
    case CleanTable(_) => CleanKeepsInv(d, maxAge, w, e);
    case SweepLru(_) => CleanKeepsInv(d, maxAge, w, e);
    case _ => DropKeepsInv(d, maxAge, w, e);
  }

  lemma {:induction false} CarefulRunsAreCurrent(d: Discipline, maxAge: real, w: World, es: seq<Event>)
    requires Careful(d) && Inv(w) && Runs(d, maxAge, w, es)
    ensures AllCurrent(d, maxAge, w, es)
    decreases |es|
  {
    hide Inv, Enabled, Current, Apply;
    if es != [] {
      StepKeepsInv(d, maxAge, w, es[0]);
      CarefulRunsAreCurrent(d, maxAge, Apply(d, maxAge, w, es[0]), es[1..]);
    }
  }

  // ---------------------------------------------------------- where it is not

  /** `es` can happen from `w`, and some lookup in it returns a record that is
      not the latest. */
  ghost predicate GoesWrong(d: Discipline, maxAge: real, w: World, es: seq<Event>) {
    Runs(d, maxAge, w, es) && !AllCurrent(d, maxAge, w, es)
  }

  lemma Prepend(d: Discipline, maxAge: real, w: World, e: Event, es: seq<Event>)
    requires Enabled(d, w, e) && GoesWrong(d, maxAge, Apply(d, maxAge, w, e), es)
    ensures GoesWrong(d, maxAge, w, [e] + es)
  {
    hide Apply, Enabled, Current;
    assert ([e] + es)[0] == e && ([e] + es)[1..] == es;
  }

  /** No call is in progress and the cache holds a record that is not the latest. */
  predicate Stale(w: World, r: Record) {
    w.calls == map[] && w.lock.None? && w.levels.lru == Some(r) && w.latest != Some(r)
  }

  const RECENT: Record := Record(None, 0.0, 0, None, Some(0.0))
  const OTHER: Record := Record(None, 1.0, 0, None, Some(0.0))

  /** From a stale state the next lookup returns the stale record. */
  lemma StaleIsReturned(d: Discipline, maxAge: real, w: World)
    requires Stale(w, RECENT)
    ensures exists es :: GoesWrong(d, maxAge, w, es)
  {
    var peek, decide, put := Peek(0, true), Decide(0, maxAge), Put(0);
    var w1 := Apply(d, maxAge, w, peek);
    assert !Writing(w) && Enabled(d, w, peek);
    assert Enabled(d, w1, decide);
    var w2 := Apply(d, maxAge, w1, decide);
    assert w2.calls[0] == Keeping(RECENT);
    var w3 := Apply(d, maxAge, w2, put);
    assert !Current(w2, put);
    assert Runs(d, maxAge, w3, []);
    assert [put][1..] == [];
    assert GoesWrong(d, maxAge, w2, [put]);
    Prepend(d, maxAge, w1, decide, [put]);
    Prepend(d, maxAge, w, peek, [decide] + [put]);
  }

  lemma PrependAny(d: Discipline, maxAge: real, w: World, e: Event)
    requires Enabled(d, w, e) && exists es :: GoesWrong(d, maxAge, Apply(d, maxAge, w, e), es)
    ensures exists es :: GoesWrong(d, maxAge, w, es)
  {
    hide Apply, Enabled, GoesWrong;
    var es :| GoesWrong(d, maxAge, Apply(d, maxAge, w, e), es);
    Prepend(d, maxAge, w, e, es);
  }

  /** A lookup that straddles a save puts the record from before the save back. */
  lemma LookupUndoesSave(d: Discipline, maxAge: real)
    requires d.getSave
    ensures exists es :: GoesWrong(d, maxAge, Start(Some(RECENT)), es)
  {
    var w := Start(Some(RECENT));
    var peek, save, store, decide, put := Peek(0, true), SaveLru(1, OTHER), SaveTable(1), Decide(0, maxAge), Put(0);
    var w1 := Apply(d, maxAge, w, peek);
    assert w1.calls == map[0 := Peeked(Some(RECENT))] && KindOf(w1.calls[0]) == Get;
    var w2 := Apply(d, maxAge, w1, save);
    var w3 := Apply(d, maxAge, w2, store);
    assert w3.calls[0] == Peeked(Some(RECENT));
    var w4 := Apply(d, maxAge, w3, decide);
    assert w4.calls[0] == Keeping(RECENT);
    var w5 := Apply(d, maxAge, w4, put);
    assert w5.calls == map[];
    StaleIsReturned(d, maxAge, w5);
    hide Apply, Enabled;
    PrependAny(d, maxAge, w4, put);
    PrependAny(d, maxAge, w3, decide);
    PrependAny(d, maxAge, w2, store);
    PrependAny(d, maxAge, w1, save);
    PrependAny(d, maxAge, w, peek);
  }

  /** A lookup that straddles a cleanup puts the record back. */
  lemma LookupUndoesCleanup(d: Discipline, maxAge: real)
    requires d.getCleanup
    ensures exists es :: GoesWrong(d, maxAge, Start(Some(RECENT)), es)
  {
    var w := Start(Some(RECENT));
    var peek, clean, drop, decide, put := Peek(0, true), CleanLru(1), CleanTable(1), Decide(0, maxAge), Put(0);
    var w1 := Apply(d, maxAge, w, peek);
    assert w1.calls == map[0 := Peeked(Some(RECENT))] && KindOf(w1.calls[0]) == Get;
    var w2 := Apply(d, maxAge, w1, clean);
    var w3 := Apply(d, maxAge, w2, drop);
    assert w3.calls[0] == Peeked(Some(RECENT));
    var w4 := Apply(d, maxAge, w3, decide);
    assert w4.calls[0] == Keeping(RECENT);
    var w5 := Apply(d, maxAge, w4, put);
    assert w5.calls == map[];
    StaleIsReturned(d, maxAge, w5);
    hide Apply, Enabled;
    PrependAny(d, maxAge, w4, put);
    PrependAny(d, maxAge, w3, decide);
    PrependAny(d, maxAge, w2, drop);
    PrependAny(d, maxAge, w1, clean);
    PrependAny(d, maxAge, w, peek);
  }

  /** The world that two saves leave when the one that starts first ends last. */
  ghost function Crossed(d: Discipline, maxAge: real, first: Record, second: Record): (w: World)
    requires d.saveSave
    ensures w.levels == Levels(Some(second), Some(first)) && w.latest == Some(first)
    ensures w.calls == map[] && w.lock.None?
  {
    var w1 := Apply(d, maxAge, Start(None), SaveLru(0, first));
    assert w1.calls == map[0 := Saving(first)];
    var w2 := Apply(d, maxAge, w1, SaveLru(1, second));
    var w3 := Apply(d, maxAge, w2, SaveTable(1));
    var w4 := Apply(d, maxAge, w3, SaveTable(0));
    assert w4.calls == map[];
    w4
  }

  /** Saves that straddle each other leave the levels with different records: one
      is found now, the other as soon as the cache drops its entry. */
  lemma SavesDisagree(d: Discipline, maxAge: real)
    requires d.saveSave
    ensures exists es :: GoesWrong(d, maxAge, Start(None), es)
  {
    var w4 := Crossed(d, maxAge, OTHER, RECENT);
    StaleIsReturned(d, maxAge, w4);
    var w1 := Apply(d, maxAge, Start(None), SaveLru(0, OTHER));
    assert w1.calls == map[0 := Saving(OTHER)];
    var w2 := Apply(d, maxAge, w1, SaveLru(1, RECENT));
    var w3 := Apply(d, maxAge, w2, SaveTable(1));
    hide Apply;
    PrependAny(d, maxAge, w3, SaveTable(0));
    PrependAny(d, maxAge, w2, SaveTable(1));
    PrependAny(d, maxAge, w1, SaveLru(1, RECENT));
    PrependAny(d, maxAge, Start(None), SaveLru(0, OTHER));
  }

  lemma WrongIsUnreliable(d: Discipline, maxAge: real, loaded: Option<Record>)
    requires exists es :: GoesWrong(d, maxAge, Start(loaded), es)
    ensures !Reliable(d, maxAge)
  {}

  lemma StartIsFine(loaded: Option<Record>)
    ensures Inv(Start(loaded))
  {}

  /** Undisturbed lookups return the latest record or nothing, in every run, if
      and only if no lookup of a path straddles a save or a cleanup of it and its
      saves do not straddle each other. Every other overlap is harmless. */
  lemma ReliableExactlyWhenCareful(d: Discipline, maxAge: real)
    ensures Reliable(d, maxAge) <==> Careful(d)
  {
    hide Inv, GoesWrong, Start, Runs, AllCurrent;
    if Careful(d) {
      forall loaded, es | Runs(d, maxAge, Start(loaded), es) ensures AllCurrent(d, maxAge, Start(loaded), es) {
        StartIsFine(loaded);
        CarefulRunsAreCurrent(d, maxAge, Start(loaded), es);
      }
    } else if d.getSave {
      LookupUndoesSave(d, maxAge);
      WrongIsUnreliable(d, maxAge, Some(RECENT));
    } else if d.getCleanup {
      LookupUndoesCleanup(d, maxAge);
      WrongIsUnreliable(d, maxAge, Some(RECENT));
    } else {
      SavesDisagree(d, maxAge);
      WrongIsUnreliable(d, maxAge, None);
    }
  }
}
