/** Destination ownership as a whole (destination_lock.py): many owners in many
    processes acquire, roll back, lease, close and crash in any interleaving. */
module Ownership {
  import L = LockTable
  import V = Leases

  datatype World = World(locks: L.World, leases: V.World)

  datatype Event =
    | AddPaths(via: nat, paths: set<L.Path>)
    | Lock(lock: L.Event)
    | Lease(lease: V.Event)

  const INITIAL: World := World(L.World(map[], map[]), V.World(map[], map[], {}))

  /** The owner whose mutex a lease step takes, if it takes one. */
  ghost predicate Touches(w: V.World, e: V.Event, x: nat)
    requires V.Enabled(w, e)
  {
    match e
    case EnterNext(a) => x == w.acts[a].waiting[0]
    case LeaveNext(a) => x == V.Last(w.acts[a].entered)
    case StartClose(_, target) => x == target
    case _ => false
  }

  ghost predicate Enabled(n: L.Naming, w: World, e: Event) {
    match e
    case AddPaths(via, paths) =>
      via in w.leases.owners &&
      var line := w.leases.owners[via].lineage;
      line != [] && (forall x | x in line :: x in w.leases.owners && !w.leases.owners[x].closing)
      && L.Enabled(n, w.locks, L.Begin(line[0], paths))
    case Lock(l) => (l.Visit? || l.IoFailure? || l.Undo? || l.End?) && L.Enabled(n, w.locks, l)
    case Lease(v) =>
      && V.Enabled(w.leases, v)
      // `add_paths` holds its owner's mutex from beginning to end.
      && (forall x | x in w.locks.holders && w.locks.holders[x].adding.Adding? :: !Touches(w.leases, v, x))
      && (v.Create? ==> v.owner !in w.locks.holders)
  }

  ghost function LocksAfterLease(n: L.Naming, w: World, v: V.Event): L.World
    requires Enabled(n, w, Lease(v))
  {
    match v
    case Create(x, _, _) => L.Apply(n, w.locks, L.Open(x))
    case LeaveNext(a) =>
      var x := V.Last(w.leases.acts[a].entered);
      if w.leases.owners[x].closing && w.leases.owners[x].active == 1 && L.Enabled(n, w.locks, L.Release(x))
      then L.Apply(n, w.locks, L.Release(x)) else w.locks
    case Crash(p) => L.Apply(n, w.locks, L.Crash(ProcessOwners(w.leases, p)))
    case _ => w.locks
  }

  ghost function ProcessOwners(w: V.World, p: nat): set<nat> {
    set x | x in w.owners && w.owners[x].process == p
  }

  ghost function Apply(n: L.Naming, w: World, e: Event): World
    requires Enabled(n, w, e)
  {
    match e
    case AddPaths(via, paths) => w.(locks := L.Apply(n, w.locks, L.Begin(w.leases.owners[via].lineage[0], paths)))
    case Lock(l) => w.(locks := L.Apply(n, w.locks, l))
    case Lease(v) => World(LocksAfterLease(n, w, v), V.Apply(w.leases, v))
  }

  /** `es` can happen one after the other, starting in `w`. */
  ghost predicate Runs(n: L.Naming, w: World, es: seq<Event>)
    decreases es
  {
    es == [] || (Enabled(n, w, es[0]) && Runs(n, Apply(n, w, es[0]), es[1..]))
  }

  ghost function After(n: L.Naming, w: World, es: seq<Event>): World
    requires Runs(n, w, es)
    decreases es
  {
    if es == [] then w else After(n, Apply(n, w, es[0]), es[1..])
  }

  ghost predicate Linked(w: World) {
    && w.locks.holders.Keys == w.leases.owners.Keys
    && forall x | x in w.leases.owners ::
         && (w.leases.owners[x].closing ==> w.locks.holders[x].adding.Quiet?)
         && (w.leases.owners[x].releases > 0 ==> w.locks.holders[x] == L.Holder(map[], L.Quiet, {}))
  }

  ghost predicate Inv(n: L.Naming, w: World) {
    L.Inv(n, w.locks) && V.Inv(w.leases) && Linked(w)
  }

  lemma LockStepKeepsLink(n: L.Naming, w: World, l: L.Event, x: nat)
    requires Linked(w) && L.Enabled(n, w.locks, l) && x in w.locks.holders
    requires !w.leases.owners[x].closing && w.leases.owners[x].releases == 0
    requires (l.Begin? || l.Visit? || l.IoFailure? || l.Undo? || l.End?) && l.owner == x
    ensures Linked(w.(locks := L.Apply(n, w.locks, l)))
  {}

  lemma LeaseStepKeepsLink(n: L.Naming, w: World, v: V.Event)
    requires Linked(w) && Enabled(n, w, Lease(v)) && !v.LeaveNext? && !v.Crash?
    ensures Linked(Apply(n, w, Lease(v)))
  {
    var w' := Apply(n, w, Lease(v));
    forall x | x in w'.leases.owners
      ensures w'.leases.owners[x].closing ==> w'.locks.holders[x].adding.Quiet?
      ensures w'.leases.owners[x].releases > 0 ==> w'.locks.holders[x] == L.Holder(map[], L.Quiet, {})
    {
      V.StepMarks(w.leases, v, x);
      if v.StartClose? && v.target == x {
        assert Touches(w.leases, v, x);
      }
    }
  }

  lemma LeaveKeepsLink(n: L.Naming, w: World, a: nat)
    requires Linked(w) && Enabled(n, w, Lease(V.LeaveNext(a)))
    ensures Linked(Apply(n, w, Lease(V.LeaveNext(a))))
  {
    var x := V.Last(w.leases.acts[a].entered);
    assert Touches(w.leases, V.LeaveNext(a), x);
  }

  lemma StepKeepsInv(n: L.Naming, w: World, e: Event)
    requires Inv(n, w) && Enabled(n, w, e)
    ensures Inv(n, Apply(n, w, e))
  {
    hide L.Inv, V.LineageOk, V.ActOk, V.Counted, V.CloserOk;
    match e
    case AddPaths(via, paths) =>
      var root := w.leases.owners[via].lineage[0];
      assert V.LifeOk(w.leases, root);
      L.StepKeepsInv(n, w.locks, L.Begin(root, paths));
      LockStepKeepsLink(n, w, L.Begin(root, paths), root);
    case Lock(l) =>
      assert V.LifeOk(w.leases, l.owner);
      L.StepKeepsInv(n, w.locks, l);
      LockStepKeepsLink(n, w, l, l.owner);
    case Lease(v) =>
      V.StepKeepsInv(w.leases, v);
      match v {
        case Create(x, _, _) =>
          L.StepKeepsInv(n, w.locks, L.Open(x));
          LeaseStepKeepsLink(n, w, v);
        case LeaveNext(a) =>
          var x := V.Last(w.leases.acts[a].entered);
          if L.Enabled(n, w.locks, L.Release(x)) {
            L.StepKeepsInv(n, w.locks, L.Release(x));
          }
          LeaveKeepsLink(n, w, a);
        case Crash(p) => L.StepKeepsInv(n, w.locks, L.Crash(ProcessOwners(w.leases, p)));
        case _ => LeaseStepKeepsLink(n, w, v);
      }
  }

  /** The invariant holds after every run. */
  lemma {:induction false} RunKeepsInv(n: L.Naming, w: World, es: seq<Event>)
    requires Inv(n, w) && Runs(n, w, es)
    ensures Inv(n, After(n, w, es))
    decreases es
  {
    if es != [] {
      StepKeepsInv(n, w, es[0]);
      RunKeepsInv(n, Apply(n, w, es[0]), es[1..]);
    }
  }

  // ----------------------------------------------------------------- theorems

  /** In every reachable world the trees granted to different owners are disjoint. */
  lemma NoTreeIsShared(n: L.Naming, es: seq<Event>, x: nat, y: nat, p: L.Path, q: L.Path)
    requires Runs(n, INITIAL, es)
    requires var w := After(n, INITIAL, es);
             x != y && x in w.locks.holders && y in w.locks.holders
             && p in w.locks.holders[x].granted && q in w.locks.holders[y].granted
    ensures !L.Overlap(L.KeyOf(n, p), L.KeyOf(n, q))
  {
    RunKeepsInv(n, INITIAL, es);
    L.GrantedTreesAreDisjoint(n, After(n, INITIAL, es).locks, x, y, p, q);
  }

  /** The locks an owner has settled, and the paths they were taken for. */
  ghost predicate Keeps(w: World, w': World, x: nat)
    requires x in w.locks.holders
  {
    x in w'.locks.holders &&
    var h, h' := w.locks.holders[x], w'.locks.holders[x];
    && h.granted <= h'.granted
    && (forall k | k in L.Settled(h) :: k in h'.held && h'.held[k] == L.Settled(h)[k])
  }

  /** While an operation or a cleanup runs, no step of anybody - short of the
      crash of its own process - takes a settled lock from its owner or from any
      ancestor of its owner, and the kernel still holds those locks. */
  lemma WorkKeepsLocks(n: L.Naming, es: seq<Event>, e: Event, a: nat, x: nat)
    requires Runs(n, INITIAL, es)
    requires var w := After(n, INITIAL, es);
             && a in w.leases.acts && w.leases.acts[a].phase.Working?
             && w.leases.acts[a].target in w.leases.owners
             && x in w.leases.owners[w.leases.acts[a].target].lineage
             && Enabled(n, w, e) && x in w.leases.owners
             && e != Lease(V.Crash(w.leases.owners[x].process))
    ensures var w := After(n, INITIAL, es);
            && x in w.locks.holders && Keeps(w, Apply(n, w, e), x)
            && (forall k | k in w.locks.holders[x].held :: L.Handle(x, k) in w.locks.table)
  {
    RunKeepsInv(n, INITIAL, es);
    StepKeepsWork(n, After(n, INITIAL, es), e, a, x);
  }

  lemma StepKeepsWork(n: L.Naming, w: World, e: Event, a: nat, x: nat)
    requires Inv(n, w) && Enabled(n, w, e) && x in w.leases.owners
    requires a in w.leases.acts && w.leases.acts[a].phase.Working?
    requires w.leases.acts[a].target in w.leases.owners
    requires x in w.leases.owners[w.leases.acts[a].target].lineage
    requires e != Lease(V.Crash(w.leases.owners[x].process))
    ensures x in w.locks.holders && Keeps(w, Apply(n, w, e), x)
    ensures forall k | k in w.locks.holders[x].held :: L.Handle(x, k) in w.locks.table
  {
    hide Keeps, V.Inv;
    V.WorkKeepsOwnership(w.leases, a, x);
    assert L.HolderOk(n, w.locks.holders[x]);
    if e.Lease? && e.lease.LeaveNext? && V.Last(w.leases.acts[e.lease.act].entered) == x {
      LeaverIsAnother(w.leases, a, e.lease.act, x);
    }
    StepKeepsSettled(n, w, e, x);
  }

  lemma StepKeepsSettled(n: L.Naming, w: World, e: Event, x: nat)
    requires Enabled(n, w, e) && x in w.leases.owners && x in w.locks.holders
    requires L.HolderOk(n, w.locks.holders[x]) && w.leases.owners[x].releases == 0
    requires e.Lease? && e.lease.LeaveNext? && V.Last(w.leases.acts[e.lease.act].entered) == x ==>
               w.leases.owners[x].active >= 2
    requires e != Lease(V.Crash(w.leases.owners[x].process))
    ensures Keeps(w, Apply(n, w, e), x)
  {
    match e
    case AddPaths(via, paths) => L.StepKeepsSettled(n, w.locks, L.Begin(w.leases.owners[via].lineage[0], paths), x);
    case Lock(l) => L.StepKeepsSettled(n, w.locks, l, x);
    case Lease(v) =>
      match v {
        case Create(y, _, _) => L.StepKeepsSettled(n, w.locks, L.Open(y), x);
        case Crash(p) => L.StepKeepsSettled(n, w.locks, L.Crash(ProcessOwners(w.leases, p)), x);
        case LeaveNext(b) =>
          var y := V.Last(w.leases.acts[b].entered);
          if y != x && L.Enabled(n, w.locks, L.Release(y)) {
            L.StepKeepsSettled(n, w.locks, L.Release(y), x);
          }
        case _ =>
      }
  }

  lemma LeaverIsAnother(w: V.World, a: nat, b: nat, x: nat)
    requires V.Inv(w) && x in w.owners && a in V.Holders(w, x) && w.acts[a].phase.Working?
    requires V.Enabled(w, V.LeaveNext(b)) && V.Last(w.acts[b].entered) == x
    ensures w.owners[x].active >= 2
  {
    hide V.LineageOk, V.ActOk, V.LifeOk, V.CloserOk, V.Route;
    assert V.Counted(w, x);
    TwoMembers(V.Holders(w, x), a, b);
  }

  lemma TwoMembers(s: set<nat>, a: nat, b: nat)
    requires a in s && b in s && a != b
    ensures |s| >= 2
  {
    assert |s - {a}| == |s| - 1 && b in s - {a};
  }

  /** The lock-table steps by which a call of `x` ends or its owner disappears. */
  ghost predicate Interrupts(w: World, e: Event, x: nat) {
    || (e.Lock? && e.lock.End? && e.lock.owner == x)
    || (e.Lease? && e.lease.Crash? && x in w.leases.owners && w.leases.owners[x].process == e.lease.process)
  }

  ghost predicate Undisturbed(n: L.Naming, w: World, es: seq<Event>, x: nat)
    requires Runs(n, w, es)
    decreases es
  {
    es == [] || (!Interrupts(w, es[0], x) && Undisturbed(n, Apply(n, w, es[0]), es[1..], x))
  }

  lemma StepRemembersStart(n: L.Naming, w: World, e: Event, x: nat)
    requires Inv(n, w) && Enabled(n, w, e) && !Interrupts(w, e, x)
    requires x in w.locks.holders && w.locks.holders[x].adding.Adding?
    ensures SameCall(w, Apply(n, w, e), x)
  {
    hide L.Inv, V.Inv;
    match e
    case AddPaths(via, paths) => L.StepKeepsCall(n, w.locks, L.Begin(w.leases.owners[via].lineage[0], paths), x);
    case Lock(l) => L.StepKeepsCall(n, w.locks, l, x);
    case Lease(v) =>
      match v {
        case Create(y, _, _) => L.StepKeepsCall(n, w.locks, L.Open(y), x);
        case Crash(p) => L.StepKeepsCall(n, w.locks, L.Crash(ProcessOwners(w.leases, p)), x);
        case LeaveNext(b) =>
          var y := V.Last(w.leases.acts[b].entered);
          assert Touches(w.leases, v, y);
          if L.Enabled(n, w.locks, L.Release(y)) {
            L.StepKeepsCall(n, w.locks, L.Release(y), x);
          }
        case _ =>
      }
  }

  ghost predicate SameCall(w: World, w': World, x: nat)
    requires x in w.locks.holders && w.locks.holders[x].adding.Adding?
  {
    x in w'.locks.holders &&
    var h, h' := w.locks.holders[x], w'.locks.holders[x];
    && h'.adding.Adding? && h'.adding.before == h.adding.before && h'.adding.paths == h.adding.paths
    && h'.granted == h.granted
  }

  /** Nothing any other owner does changes what a call in progress set out from. */
  lemma {:induction false} CallRemembersStart(n: L.Naming, w: World, es: seq<Event>, x: nat)
    requires Inv(n, w) && Runs(n, w, es) && Undisturbed(n, w, es, x)
    requires x in w.locks.holders && w.locks.holders[x].adding.Adding?
    ensures SameCall(w, After(n, w, es), x)
    decreases es
  {
    if es != [] {
      StepRemembersStart(n, w, es[0], x);
      StepKeepsInv(n, w, es[0]);
      CallRemembersStart(n, Apply(n, w, es[0]), es[1..], x);
    }
  }

  ghost function Root(w: World, via: nat): nat
    requires via in w.leases.owners && w.leases.owners[via].lineage != []
  {
    w.leases.owners[via].lineage[0]
  }

  /** A call that failed leaves its owner with exactly the locks and the paths it
      had before, whatever everybody else did meanwhile; a call that succeeded
      adds exactly the missing required keys, each in its required mode. */
  lemma CallOutcome(n: L.Naming, w0: World, via: nat, paths: set<L.Path>, during: seq<Event>)
    requires Inv(n, w0) && Enabled(n, w0, AddPaths(via, paths))
    requires var w1 := Apply(n, w0, AddPaths(via, paths));
             && Runs(n, w1, during) && Undisturbed(n, w1, during, Root(w0, via))
             && Enabled(n, After(n, w1, during), Lock(L.End(Root(w0, via))))
    ensures var x := Root(w0, via);
            var w2 := After(n, Apply(n, w0, AddPaths(via, paths)), during);
            var h0, h3 := w0.locks.holders[x], Apply(n, w2, Lock(L.End(x))).locks.holders[x];
            if w2.locks.holders[x].adding.failing then h3 == h0
            else h3 == L.Holder(L.Requirements(n, paths) + h0.held, L.Quiet, h0.granted + paths)
  {
    var x := Root(w0, via);
    var w1 := Apply(n, w0, AddPaths(via, paths));
    StepKeepsInv(n, w0, AddPaths(via, paths));
    CallRemembersStart(n, w1, during, x);
    RunKeepsInv(n, w1, during);
    var w2 := After(n, w1, during);
    assert L.HolderOk(n, w2.locks.holders[x]);
    L.EndOutcome(n, w2.locks, x);
  }
}
