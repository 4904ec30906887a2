/** When `add_paths` grants a request (destination_lock.py), in terms of trees: what
    is locked anywhere is justified by the trees that somebody was granted or is being
    granted, so that a request for trees apart from those finds nothing in its way. */
module Granting {
  import opened LockTable
  import DL = DestinationLocks
  import O = Ownership
  import V = Leases

  /** Nothing is locked without a path that needs it, or more strongly than it needs. */
  ghost predicate Justified(n: Naming, held: map<Key, bool>, paths: set<Path>) {
    && (forall k | k in held :: exists p :: p in paths && k <= KeyOf(n, p))
    && (forall k | k in held && held[k] :: exists p :: p in paths && k == KeyOf(n, p))
  }

  ghost predicate AllJustified(n: Naming, w: World) {
    forall x | x in w.holders :: Justified(n, Settled(w.holders[x]), w.holders[x].granted)
  }

  /** The trees granted to an owner, and those it is asking for. */
  ghost function Trees(h: Holder): set<Path> {
    h.granted + if h.adding.Adding? then h.adding.paths else {}
  }

  lemma RequirementsAreJustified(n: Naming, paths: set<Path>)
    ensures Justified(n, Requirements(n, paths), paths)
  {
    forall k | k in RequiredKeys(n, paths) ensures exists p :: p in paths && k <= KeyOf(n, p) {
      var p, i :| p in paths && 0 <= i <= |p| && k == KeyOf(n, p)[..i];
      assert k <= KeyOf(n, p);
    }
  }

  lemma JustifiedTogether(n: Naming, a: map<Key, bool>, b: map<Key, bool>, p: set<Path>, q: set<Path>)
    requires Justified(n, a, p) && Justified(n, b, q)
    ensures Justified(n, a + b, q + p)
  {}

  /** Whatever an owner holds, finished or not, is justified by its trees. */
  lemma HeldIsJustified(n: Naming, h: Holder)
    requires HolderOk(n, h) && Justified(n, Settled(h), h.granted)
    ensures Justified(n, h.held, Trees(h))
  {
    if h.adding.Adding? {
      var r := Requirements(n, h.adding.paths);
      RequirementsAreJustified(n, h.adding.paths);
      JustifiedTogether(n, r, h.adding.before, h.adding.paths, h.granted);
      HeldIsRequired(n, h);
      hide HolderOk, Requirements;
    }
  }

  lemma HeldIsRequired(n: Naming, h: Holder)
    requires HolderOk(n, h) && h.adding.Adding?
    ensures var r := Requirements(n, h.adding.paths) + h.adding.before;
            forall k | k in h.held :: k in r && h.held[k] == r[k]
  {
    hide Covered, Settled, RequiredKeys, IsTarget;
  }

  lemma EndKeepsJustified(n: Naming, w: World, x: nat)
    requires Inv(n, w) && AllJustified(n, w) && Enabled(n, w, End(x))
    ensures AllJustified(n, Apply(n, w, End(x)))
  {
    var h := w.holders[x];
    assert HolderOk(n, h) && Justified(n, Settled(h), h.granted);
    EndOutcome(n, w, x);
    RequirementsAreJustified(n, h.adding.paths);
    JustifiedTogether(n, Requirements(n, h.adding.paths), h.adding.before, h.adding.paths, h.granted);
    hide Justified, Inv, Requirements, HolderOk;
    assert forall y | y in w.holders && y != x :: Apply(n, w, End(x)).holders[y] == w.holders[y];
  }

  lemma StepKeepsJustified(n: Naming, w: World, e: Event)
    requires Inv(n, w) && AllJustified(n, w) && Enabled(n, w, e)
    ensures AllJustified(n, Apply(n, w, e))
  {
    if e.End? {
      EndKeepsJustified(n, w, e.owner);
    } else {
      assert Justified(n, map[], {});
      var w' := Apply(n, w, e);
      hide Justified, Inv, Apply, Enabled, Settled;
      forall x | x in w'.holders ensures Justified(n, Settled(w'.holders[x]), w'.holders[x].granted) {
        SettledSame(n, w, e, x);
      }
    }
  }

  lemma SettledSame(n: Naming, w: World, e: Event, x: nat)
    requires Enabled(n, w, e) && !e.End? && x in Apply(n, w, e).holders
    ensures var h' := Apply(n, w, e).holders[x];
            if x in w.holders && e != Release(x)
            then Settled(h') == Settled(w.holders[x]) && h'.granted == w.holders[x].granted
            else Settled(h') == map[] && h'.granted == {}
  {
    hide CanLock, IsTarget, RequiredKeys;
  }

  lemma RunStepKeepsJustified(n: Naming, w: O.World, e: O.Event)
    requires O.Inv(n, w) && AllJustified(n, w.locks) && O.Enabled(n, w, e)
    ensures AllJustified(n, O.Apply(n, w, e).locks)
  {
    hide AllJustified, Inv, V.Inv;
    match e
    case AddPaths(via, paths) => StepKeepsJustified(n, w.locks, Begin(w.leases.owners[via].lineage[0], paths));
    case Lock(l) => StepKeepsJustified(n, w.locks, l);
    case Lease(v) =>
      match v {
        case Create(x, _, _) => StepKeepsJustified(n, w.locks, Open(x));
        case Crash(p) => StepKeepsJustified(n, w.locks, Crash(O.ProcessOwners(w.leases, p)));
        case LeaveNext(a) =>
          var x := V.Last(w.leases.acts[a].entered);
          if Enabled(n, w.locks, Release(x)) {
            StepKeepsJustified(n, w.locks, Release(x));
          }
        case _ =>
      }
  }

  lemma {:induction false} RunKeepsJustified(n: Naming, w: O.World, es: seq<O.Event>)
    requires O.Inv(n, w) && AllJustified(n, w.locks) && O.Runs(n, w, es)
    ensures AllJustified(n, O.After(n, w, es).locks)
    decreases es
  {
    hide AllJustified, O.Inv;
    if es != [] {
      O.StepKeepsInv(n, w, es[0]);
      RunStepKeepsJustified(n, w, es[0]);
      RunKeepsJustified(n, O.Apply(n, w, es[0]), es[1..]);
    }
  }

  /** The keys of this request and of every lock have different lock files. */
  ghost predicate NoCollision(n: Naming, w: World, paths: set<Path>) {
    forall j, k | n.digest(j) == n.digest(k) && InPlay(n, w, paths, j) && InPlay(n, w, paths, k) :: j == k
  }

  ghost predicate InPlay(n: Naming, w: World, paths: set<Path>, k: Key) {
    || (exists p :: p in paths && k <= KeyOf(n, p))
    || (exists x, p :: x in w.holders && p in Trees(w.holders[x]) && k <= KeyOf(n, p))
  }

  /** No tree of the request overlaps one of another owner. */
  ghost predicate Apart(n: Naming, w: World, x: nat, paths: set<Path>) {
    forall y, p, q | y in w.holders && y != x && p in paths && q in Trees(w.holders[y]) ::
      !Overlap(KeyOf(n, p), KeyOf(n, q))
  }

  /** No tree of the request contains one that its owner was granted before, unless it
      was granted itself. */
  ghost predicate OutsideOwn(n: Naming, granted: set<Path>, paths: set<Path>) {
    forall p, q | p in paths && q in granted && KeyOf(n, p) <= KeyOf(n, q) ::
      exists r :: r in granted && KeyOf(n, r) == KeyOf(n, p)
  }

  /** In every reachable world a request for trees apart from those of all other owners,
      and from its own owner's, finds nothing in its way: these are the two conditions
      under which `AddPaths` grants it. */
  lemma ApartIsGranted(n: Naming, es: seq<O.Event>, x: nat, paths: set<Path>)
    requires O.Runs(n, O.INITIAL, es)
    requires var w := O.After(n, O.INITIAL, es).locks;
             && x in w.holders && w.holders[x].adding.Quiet? && NoCollision(n, w, paths)
             && Apart(n, w, x, paths) && OutsideOwn(n, w.holders[x].granted, paths)
    ensures var w, required := O.After(n, O.INITIAL, es).locks, Requirements(n, paths);
            && !DL.Overlaid(w.holders[x].held, required) && !DL.Contended(n, w.table, w.holders[x].held, required)
  {
    O.RunKeepsInv(n, O.INITIAL, es);
    RunKeepsJustified(n, O.INITIAL, es);
    var w := O.After(n, O.INITIAL, es).locks;
    NotOverlaid(n, w, x, paths);
    NotContended(n, w, x, paths);
  }

  lemma NotOverlaid(n: Naming, w: World, x: nat, paths: set<Path>)
    requires Inv(n, w) && AllJustified(n, w) && x in w.holders && w.holders[x].adding.Quiet?
    requires OutsideOwn(n, w.holders[x].granted, paths)
    ensures !DL.Overlaid(w.holders[x].held, Requirements(n, paths))
  {
    var h := w.holders[x];
    assert HolderOk(n, h) && Justified(n, Settled(h), h.granted);
    hide Inv, AllJustified, HolderOk, OutsideOwn, Covered, Justified;
    forall k | k in Requirements(n, paths) && Requirements(n, paths)[k] && k in h.held ensures h.held[k] {
      TargetIsExclusive(n, h.held, h.granted, paths, k) by { HolderIsCovered(n, h); }
    }
  }

  lemma HolderIsCovered(n: Naming, h: Holder)
    requires HolderOk(n, h)
    ensures Covered(n, Settled(h), h.granted)
  {}

  lemma TargetIsExclusive(n: Naming, held: map<Key, bool>, granted: set<Path>, paths: set<Path>, k: Key)
    requires Covered(n, held, granted) && Justified(n, held, granted) && OutsideOwn(n, granted, paths)
    requires IsTarget(n, paths, k) && k in held
    ensures held[k]
  {
    hide KeyOf, Covered;
    var p :| p in paths && KeyOf(n, p) == k;
    var q :| q in granted && k <= KeyOf(n, q);
    var r :| r in granted && KeyOf(n, r) == KeyOf(n, p);
    CoveredIsExclusive(n, held, granted, r);
  }

  lemma CoveredIsExclusive(n: Naming, held: map<Key, bool>, granted: set<Path>, r: Path)
    requires Covered(n, held, granted) && r in granted
    ensures KeyOf(n, r) in held && held[KeyOf(n, r)]
  {}

  lemma NotContended(n: Naming, w: World, x: nat, paths: set<Path>)
    requires Inv(n, w) && AllJustified(n, w) && x in w.holders
    requires NoCollision(n, w, paths) && Apart(n, w, x, paths)
    ensures !DL.Contended(n, w.table, w.holders[x].held, Requirements(n, paths))
  {
    var required := Requirements(n, paths);
    RequirementsAreJustified(n, paths);
    forall k | k in required && k !in w.holders[x].held ensures !DL.Blocked(n, w.table, required, k) {
      assert InPlay(n, w, paths, k);
      forall h | h in w.table && n.digest(h.key) == n.digest(k) ensures !required[k] && !w.table[h] {
        LockIsNoObstacle(n, w, x, paths, k, h);
      }
      forall j | j in required && j != k && n.digest(j) == n.digest(k) ensures false {
        assert InPlay(n, w, paths, j);
      }
    }
  }

  lemma LockIsNoObstacle(n: Naming, w: World, x: nat, paths: set<Path>, k: Key, h: Handle)
    requires Inv(n, w) && AllJustified(n, w) && x in w.holders
    requires NoCollision(n, w, paths) && Apart(n, w, x, paths)
    requires k in RequiredKeys(n, paths) && k !in w.holders[x].held
    requires h in w.table && n.digest(h.key) == n.digest(k)
    ensures !IsTarget(n, paths, k) && !w.table[h]
  {
    var y := h.owner;
    LockIsHeld(n, w, h);
    var trees := Trees(w.holders[y]);
    RequirementsAreJustified(n, paths);
    hide Inv, AllJustified, Trees, RequiredKeys, KeyOf, Requirements;
    assert k in Requirements(n, paths) by { RequirementOf(n, paths, k); }
    var p :| p in paths && k <= KeyOf(n, p);
    var q :| q in trees && h.key <= KeyOf(n, q);
    assert InPlay(n, w, paths, k) && InPlay(n, w, paths, h.key);
    assert h.key == k && y != x;
  }

  lemma RequirementOf(n: Naming, paths: set<Path>, k: Key)
    ensures k in RequiredKeys(n, paths) <==> k in Requirements(n, paths)
  {}

  /** A lock is in its owner's record, and its trees are why. */
  lemma LockIsHeld(n: Naming, w: World, h: Handle)
    requires Inv(n, w) && AllJustified(n, w) && h in w.table
    ensures h.owner in w.holders && h.key in w.holders[h.owner].held
    ensures exists q :: q in Trees(w.holders[h.owner]) && h.key <= KeyOf(n, q)
    ensures w.table[h] ==> exists q :: q in Trees(w.holders[h.owner]) && h.key == KeyOf(n, q)
  {
    var holder := w.holders[h.owner];
    assert HolderOk(n, holder) && Justified(n, Settled(holder), holder.granted);
    HeldIsJustified(n, holder);
    hide HolderOk, TableSafe, AllJustified, Trees, KeyOf, Settled;
  }

  /** Whatever others do meanwhile, no visit of a call for trees apart from theirs and
      outside its owner's earlier ones fails: only a lock file that cannot be opened does. */
  lemma VisitApartSucceeds(n: Naming, es: seq<O.Event>, x: nat, key: Key)
    requires O.Runs(n, O.INITIAL, es)
    requires var w := O.After(n, O.INITIAL, es).locks;
             && Enabled(n, w, Visit(x, key)) && NoCollision(n, w, w.holders[x].adding.paths)
             && Apart(n, w, x, w.holders[x].adding.paths)
             && OutsideOwn(n, w.holders[x].granted, w.holders[x].adding.paths)
    ensures var w := O.After(n, O.INITIAL, es).locks;
            && !Apply(n, w, Visit(x, key)).holders[x].adding.failing
            && key in Apply(n, w, Visit(x, key)).holders[x].held
  {
    O.RunKeepsInv(n, O.INITIAL, es);
    RunKeepsJustified(n, O.INITIAL, es);
    VisitSucceeds(n, O.After(n, O.INITIAL, es).locks, x, key);
    VisitGoesOn(n, O.After(n, O.INITIAL, es).locks, x, key);
  }

  lemma VisitSucceeds(n: Naming, w: World, x: nat, key: Key)
    requires Inv(n, w) && AllJustified(n, w) && Enabled(n, w, Visit(x, key))
    requires var h := w.holders[x];
             && NoCollision(n, w, h.adding.paths) && Apart(n, w, x, h.adding.paths)
             && OutsideOwn(n, h.granted, h.adding.paths)
    ensures var h := w.holders[x];
            if key in h.held then IsTarget(n, h.adding.paths, key) ==> h.held[key]
            else CanLock(n, w.table, key, IsTarget(n, h.adding.paths, key))
  {
    hide Inv, AllJustified, HolderOk, OutsideOwn, Apart, NoCollision, CanLock, IsTarget, Justified, Settled, KeyOf;
    var h := w.holders[x];
    HolderOf(n, w, x);
    if key in h.held {
      HeldIsStrong(n, h, key);
    } else {
      FreeIsLockable(n, w, x, key);
    }
  }

  lemma HolderOf(n: Naming, w: World, x: nat)
    requires Inv(n, w) && AllJustified(n, w) && x in w.holders
    ensures HolderOk(n, w.holders[x]) && Justified(n, Settled(w.holders[x]), w.holders[x].granted)
  {
    hide HolderOk, Justified;
  }

  lemma VisitGoesOn(n: Naming, w: World, x: nat, key: Key)
    requires Enabled(n, w, Visit(x, key))
    requires var h := w.holders[x];
             if key in h.held then IsTarget(n, h.adding.paths, key) ==> h.held[key]
             else CanLock(n, w.table, key, IsTarget(n, h.adding.paths, key))
    ensures !VisitKey(n, w, x, key).holders[x].adding.failing && key in VisitKey(n, w, x, key).holders[x].held
  {
    hide CanLock, IsTarget;
  }

  lemma HeldIsStrong(n: Naming, h: Holder, key: Key)
    requires h.adding.Adding? && key in h.adding.todo && key in h.held
    requires HolderOk(n, h) && Justified(n, Settled(h), h.granted) && OutsideOwn(n, h.granted, h.adding.paths)
    ensures IsTarget(n, h.adding.paths, key) ==> h.held[key]
  {
    hide HolderOk, OutsideOwn, Covered, Justified, IsTarget, RequiredKeys, KeyOf;
    VisitIsRequired(n, h, key);
    HolderIsCovered(n, h);
    if IsTarget(n, h.adding.paths, key) && key in h.adding.before {
      TargetIsExclusive(n, h.adding.before, h.granted, h.adding.paths, key);
    }
  }

  lemma FreeIsLockable(n: Naming, w: World, x: nat, key: Key)
    requires Inv(n, w) && AllJustified(n, w) && Enabled(n, w, Visit(x, key)) && key !in w.holders[x].held
    requires NoCollision(n, w, w.holders[x].adding.paths) && Apart(n, w, x, w.holders[x].adding.paths)
    ensures CanLock(n, w.table, key, IsTarget(n, w.holders[x].adding.paths, key))
  {
    var paths := w.holders[x].adding.paths;
    assert HolderOk(n, w.holders[x]);
    VisitIsRequired(n, w.holders[x], key);
    hide Inv, AllJustified, HolderOk, Apart, NoCollision, IsTarget, RequiredKeys;
    forall g | g in w.table && n.digest(g.key) == n.digest(key) ensures !IsTarget(n, paths, key) && !w.table[g] {
      LockIsNoObstacle(n, w, x, paths, key, g);
    }
  }

  lemma VisitIsRequired(n: Naming, h: Holder, key: Key)
    requires HolderOk(n, h) && h.adding.Adding? && key in h.adding.todo
    ensures key in RequiredKeys(n, h.adding.paths)
    ensures key in h.held && key !in h.adding.before ==> h.held[key] == IsTarget(n, h.adding.paths, key)
    ensures key in h.adding.before ==> key in h.held && h.held[key] == h.adding.before[key]
  {
    hide Covered, Settled;
  }

  /** And a request for a tree that overlaps one granted to another owner is refused. */
  lemma OverlapIsRefused(n: Naming, es: seq<O.Event>, x: nat, y: nat, paths: set<Path>, p: Path, q: Path)
    requires O.Runs(n, O.INITIAL, es)
    requires var w := O.After(n, O.INITIAL, es).locks;
             && x in w.holders && y in w.holders && x != y && p in paths && q in w.holders[y].granted
             && Overlap(KeyOf(n, p), KeyOf(n, q))
    ensures var w, required := O.After(n, O.INITIAL, es).locks, Requirements(n, paths);
            DL.Overlaid(w.holders[x].held, required) || DL.Contended(n, w.table, w.holders[x].held, required)
  {
    O.RunKeepsInv(n, O.INITIAL, es);
    OverlapIsInTheWay(n, O.After(n, O.INITIAL, es).locks, x, y, paths, p, q);
  }

  lemma OverlapIsInTheWay(n: Naming, w: World, x: nat, y: nat, paths: set<Path>, p: Path, q: Path)
    requires Inv(n, w) && x in w.holders && y in w.holders && x != y && p in paths && q in w.holders[y].granted
    requires Overlap(KeyOf(n, p), KeyOf(n, q))
    ensures var required := Requirements(n, paths);
            DL.Overlaid(w.holders[x].held, required) || DL.Contended(n, w.table, w.holders[x].held, required)
  {
    var k := if KeyOf(n, p) <= KeyOf(n, q) then KeyOf(n, p) else KeyOf(n, q);
    var required, held := Requirements(n, paths), w.holders[x].held;
    GrantedIsLocked(n, w, y, q);
    PrefixIsLocked(n, w, y, q, k);
    assert KeyOf(n, p)[..|k|] == k;
    assert k in required && (required[k] || w.table[Handle(y, k)]);
    if k in held {
      assert Handle(x, k) in w.table && !w.table[Handle(x, k)];
    } else {
      assert DL.Blocked(n, w.table, required, k);
    }
  }
}
