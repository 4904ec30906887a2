/** Operation leases of destination owners (destination_lock.py): `operation`,
    `_leave` and `close`, with any number of threads inside any number of nested
    owners. An owner's locks are released when it is closing and its last lease
    leaves. Every step below is one critical section of one owner's mutex. */
module Leases {
  import opened Collections

  /** One owner. `lineage` lists its ancestors, outermost first, and itself;
      `closer`, `cleanups` and `releases` record what happened to it. */
  datatype Life = Life(
    lineage: seq<nat>, process: nat, active: int, closing: bool,
    closer: Option<nat>, cleanups: nat, releases: nat)

  datatype Kind = Operation | Closing
  datatype Phase = Entering | Working | Leaving

  /** One `with operation()` block or one `close` call: the leases it has taken,
      in order, and the owners it still has to enter. */
  datatype Activity = Activity(kind: Kind, target: nat, phase: Phase, entered: seq<nat>, waiting: seq<nat>)

  datatype World = World(owners: map<nat, Life>, acts: map<nat, Activity>, started: set<nat>)

  datatype Event =
    | Create(owner: nat, parent: Option<nat>, process: nat)
    | StartOperation(act: nat, target: nat)
    | StartClose(act: nat, target: nat)
    | EnterNext(act: nat)
    | BeginWork(act: nat)
    | EndWork(act: nat)
    | LeaveNext(act: nat)
    | Finish(act: nat)
    | Crash(process: nat)

  function Last<T>(s: seq<T>): T requires s != [] { s[|s| - 1] }
  function Front<T>(s: seq<T>): seq<T> requires s != [] { s[..|s| - 1] }

  predicate Enabled(w: World, e: Event) {
    match e
    case Create(x, parent, process) =>
      x !in w.owners &&
      (parent.Some? ==> parent.value in w.owners && w.owners[parent.value].process == process)
    case StartOperation(a, x) => a !in w.started && x in w.owners
    case StartClose(a, x) => a !in w.started && x in w.owners
    case EnterNext(a) => a in w.acts && w.acts[a].phase.Entering? && w.acts[a].waiting != []
      && w.acts[a].waiting[0] in w.owners
    case BeginWork(a) => a in w.acts && w.acts[a].phase.Entering? && w.acts[a].waiting == []
      && w.acts[a].target in w.owners
    case EndWork(a) => a in w.acts && w.acts[a].phase.Working?
    case LeaveNext(a) => a in w.acts && w.acts[a].phase.Leaving? && w.acts[a].entered != []
      && Last(w.acts[a].entered) in w.owners
    case Finish(a) => a in w.acts && w.acts[a].phase.Leaving? && w.acts[a].entered == []
    case Crash(_) => true
  }

  /** Entering one owner: refused when it is closing, counted otherwise. */
  function EnterOwner(w: World, a: nat): World
    requires Enabled(w, EnterNext(a))
  {
    var act := w.acts[a];
    var x := act.waiting[0];
    if w.owners[x].closing then w.(acts := w.acts[a := act.(phase := Leaving)])
    else w.(owners := w.owners[x := w.owners[x].(active := w.owners[x].active + 1)],
            acts := w.acts[a := act.(entered := act.entered + [x], waiting := act.waiting[1..])])
  }

  /** `_leave`: the last lease of a closing owner releases its locks. */
  function Left(life: Life): Life {
    var active := life.active - 1;
    life.(active := active, releases := life.releases + if life.closing && active == 0 then 1 else 0)
  }

  /** Leases are given back in the opposite order. */
  function LeaveOwner(w: World, a: nat): World
    requires Enabled(w, LeaveNext(a))
  {
    var act := w.acts[a];
    var x := Last(act.entered);
    w.(owners := w.owners[x := Left(w.owners[x])], acts := w.acts[a := act.(entered := Front(act.entered))])
  }

  /** `close`: the first caller marks the owner and keeps a lease of its own. */
  function CloseOwner(w: World, a: nat, x: nat): World
    requires Enabled(w, StartClose(a, x))
  {
    var life := w.owners[x];
    if life.closing then w
    else World(w.owners[x := life.(closing := true, active := life.active + 1, closer := Some(a))],
               w.acts[a := Activity(Closing, x, Entering, [x], if life.lineage == [] then [] else Front(life.lineage))],
               w.started + {a})
  }

  function Apply(w: World, e: Event): World
    requires Enabled(w, e)
  {
    match e
    case Create(x, parent, process) =>
      var above := if parent.Some? then w.owners[parent.value].lineage else [];
      w.(owners := w.owners[x := Life(above + [x], process, 0, false, None, 0, 0)])
    case StartOperation(a, x) =>
      w.(acts := w.acts[a := Activity(Operation, x, Entering, [], w.owners[x].lineage)], started := w.started + {a})
    case StartClose(a, x) => CloseOwner(w, a, x)
    case EnterNext(a) => EnterOwner(w, a)
    case BeginWork(a) =>
      var act := w.acts[a];
      var life := w.owners[act.target];
      World(if act.kind.Closing? then w.owners[act.target := life.(cleanups := life.cleanups + 1)] else w.owners,
            w.acts[a := act.(phase := Working)], w.started)
    case EndWork(a) => w.(acts := w.acts[a := w.acts[a].(phase := Leaving)])
    case LeaveNext(a) => LeaveOwner(w, a)
    case Finish(a) => w.(acts := w.acts - {a})
    case Crash(p) =>
      World(map x | x in w.owners && w.owners[x].process != p :: w.owners[x],
            map a | a in w.acts && Survives(w, w.acts[a].target, p) :: w.acts[a],
            w.started)
  }

  predicate Survives(w: World, x: nat, process: nat) {
    x in w.owners && w.owners[x].process != process
  }

  // ---------------------------------------------------------------- invariant

  predicate LineageOk(w: World, x: nat)
    requires x in w.owners
  {
    var line := w.owners[x].lineage;
    && line != [] && Last(line) == x && Distinct(line)
    && forall i | 0 <= i < |line| ::
         line[i] in w.owners && w.owners[line[i]].lineage == line[..i + 1]
         && w.owners[line[i]].process == w.owners[x].process
  }

  /** Every owner an activity passes through, in the order it enters them. */
  function Route(w: World, act: Activity): seq<nat>
    requires act.target in w.owners && w.owners[act.target].lineage != []
  {
    var line := w.owners[act.target].lineage;
    if act.kind.Operation? then line else [act.target] + Front(line)
  }

  predicate ActOk(w: World, a: nat)
    requires a in w.acts
  {
    var act := w.acts[a];
    && a in w.started && act.target in w.owners && LineageOk(w, act.target)
    && match act.phase
       case Entering => act.entered + act.waiting == Route(w, act) && (act.kind.Closing? ==> act.entered != [])
       case Working => act.entered == Route(w, act)
       case Leaving => act.entered <= Route(w, act)
  }

  predicate LifeOk(w: World, x: nat)
    requires x in w.owners
  {
    var life := w.owners[x];
    && life.closing == life.closer.Some?
    && (life.closer.Some? ==> life.closer.value in w.started)
    && life.releases == (if life.closing && life.active == 0 then 1 else 0)
    && life.cleanups <= 1
    && (life.cleanups == 1 ==> life.closing &&
                               (life.closer.value in w.acts ==> !w.acts[life.closer.value].phase.Entering?))
  }

  /** A cleanup belongs to the one `close` call that marked its owner. */
  predicate CloserOk(w: World, a: nat)
    requires a in w.acts && w.acts[a].target in w.owners
  {
    w.acts[a].kind.Closing? ==> w.owners[w.acts[a].target].closer == Some(a)
  }

  /** The activities that hold a lease on `x`. */
  function Holders(w: World, x: nat): set<nat> {
    set a | a in w.acts && x in w.acts[a].entered
  }

  predicate Counted(w: World, x: nat)
    requires x in w.owners
  {
    w.owners[x].active == |Holders(w, x)|
  }

  predicate Inv(w: World) {
    && (forall x | x in w.owners :: LineageOk(w, x) && LifeOk(w, x) && Counted(w, x))
    && (forall a | a in w.acts :: ActOk(w, a) && CloserOk(w, a))
  }

  // ------------------------------------------------------------- preservation

  /** Lineages never change, so a step that keeps them keeps every route. */
  predicate SameLineages(w: World, w': World) {
    && w.owners.Keys == w'.owners.Keys
    && forall x | x in w.owners :: w'.owners[x].lineage == w.owners[x].lineage
         && w'.owners[x].process == w.owners[x].process
  }

  lemma RoutesKept(w: World, w': World, x: nat)
    requires SameLineages(w, w') && x in w.owners && LineageOk(w, x)
    ensures LineageOk(w', x)
  {}

  /** An activity meets an owner at most once on its way. */
  lemma RouteDistinct(w: World, act: Activity)
    requires act.target in w.owners && LineageOk(w, act.target)
    ensures Distinct(Route(w, act))
    ensures forall x :: x in Route(w, act) <==> x in w.owners[act.target].lineage
  {
    var line := w.owners[act.target].lineage;
    assert line == Front(line) + [act.target];
  }

  lemma CountEnter(w: World, w': World, a: nat, x: nat)
    requires a in w.acts && x !in w.acts[a].entered
    requires w'.acts.Keys == w.acts.Keys && w'.acts[a].entered == w.acts[a].entered + [x]
    requires forall b | b in w.acts && b != a :: w'.acts[b].entered == w.acts[b].entered
    ensures forall y :: Holders(w', y) == if y == x then Holders(w, y) + {a} else Holders(w, y)
    ensures |Holders(w', x)| == |Holders(w, x)| + 1
  {
    assert Holders(w', x) == Holders(w, x) + {a};
  }

  lemma CountLeave(w: World, w': World, a: nat)
    requires a in w.acts && w.acts[a].entered != [] && Distinct(w.acts[a].entered)
    requires w'.acts.Keys == w.acts.Keys && w'.acts[a].entered == Front(w.acts[a].entered)
    requires forall b | b in w.acts && b != a :: w'.acts[b].entered == w.acts[b].entered
    ensures forall y :: Holders(w', y) == if y == Last(w.acts[a].entered) then Holders(w, y) - {a} else Holders(w, y)
    ensures |Holders(w', Last(w.acts[a].entered))| == |Holders(w, Last(w.acts[a].entered))| - 1
  {
    var x := Last(w.acts[a].entered);
    assert w.acts[a].entered == Front(w.acts[a].entered) + [x];
    assert Holders(w', x) == Holders(w, x) - {a};
  }

  lemma ActsStarted(w: World)
    requires Inv(w)
    ensures w.acts.Keys <= w.started
  {
    forall a | a in w.acts ensures a in w.started {
      assert ActOk(w, a);
    }
  }

  lemma CountSame(w: World, w': World)
    requires forall a :: a in w.acts && w.acts[a].entered != [] <==> a in w'.acts && w'.acts[a].entered != []
    requires forall a | a in w.acts && a in w'.acts :: w'.acts[a].entered == w.acts[a].entered
    ensures forall y :: Holders(w', y) == Holders(w, y)
  {}

  lemma CreateLineage(w: World, x: nat, parent: Option<nat>, process: nat)
    requires Inv(w) && Enabled(w, Create(x, parent, process))
    ensures forall y | y in Apply(w, Create(x, parent, process)).owners ::
              LineageOk(Apply(w, Create(x, parent, process)), y)
  {
    var w' := Apply(w, Create(x, parent, process));
    forall y | y in w.owners ensures LineageOk(w', y) {
      assert LineageOk(w, y);
    }
    var line := w'.owners[x].lineage;
    if parent.Some? {
      assert LineageOk(w, parent.value);
      assert x !in w.owners[parent.value].lineage;
    }
    NewLineage(w', x, if parent.Some? then w.owners[parent.value].lineage else []);
  }

  /** An owner's lineage is its parent's, with itself at the end. */
  lemma NewLineage(w: World, x: nat, above: seq<nat>)
    requires x in w.owners && w.owners[x].lineage == above + [x] && Distinct(above) && x !in above
    requires forall i | 0 <= i < |above| ::
               above[i] in w.owners && w.owners[above[i]].lineage == above[..i + 1]
               && w.owners[above[i]].process == w.owners[x].process
    ensures LineageOk(w, x)
  {
    var line := above + [x];
    assert line[..|line|] == line;
    forall i | 0 <= i < |above| ensures line[i] == above[i] && line[..i + 1] == above[..i + 1] {}
  }

  lemma FreshOwnerUnleased(w: World, x: nat)
    requires Inv(w) && x !in w.owners
    ensures Holders(w, x) == {}
  {
    forall a | a in w.acts ensures x !in w.acts[a].entered {
      assert ActOk(w, a);
      RouteDistinct(w, w.acts[a]);
      assert x !in Route(w, w.acts[a]);
    }
  }

  lemma CreateKeepsInv(w: World, x: nat, parent: Option<nat>, process: nat)
    requires Inv(w) && Enabled(w, Create(x, parent, process))
    ensures Inv(Apply(w, Create(x, parent, process)))
  {
    var w' := Apply(w, Create(x, parent, process));
    CountSame(w, w');
    CreateLineage(w, x, parent, process);
    FreshOwnerUnleased(w, x);
    forall a | a in w.acts ensures ActOk(w', a) && CloserOk(w', a) {
      assert ActOk(w, a) && CloserOk(w, a);
    }
    forall y | y in w.owners ensures LifeOk(w', y) && Counted(w', y) {
      assert LifeOk(w, y) && Counted(w, y);
    }
  }

  /** When only activity `a` changed, and it changed well, all activities are well. */
  lemma OthersKept(w: World, w': World, a: nat)
    requires Inv(w) && SameLineages(w, w') && w.started <= w'.started
    requires forall b | b in w'.acts && b != a :: b in w.acts && w'.acts[b] == w.acts[b]
    requires forall x | x in w.owners && w.owners[x].closer.Some? :: w'.owners[x].closer == w.owners[x].closer
    ensures forall x | x in w'.owners :: LineageOk(w', x)
    ensures forall b | b in w'.acts && b != a :: ActOk(w', b) && CloserOk(w', b)
  {
    forall x | x in w.owners ensures LineageOk(w', x) {
      RoutesKept(w, w', x);
    }
    forall b | b in w'.acts && b != a ensures ActOk(w', b) && CloserOk(w', b) {
      assert ActOk(w, b) && CloserOk(w, b);
    }
  }

  /** The next owner on an activity's way is new to it. */
  lemma EnterRoute(w: World, w': World, act: Activity, act': Activity)
    requires SameLineages(w, w') && act.target in w.owners && LineageOk(w, act.target)
    requires act'.target == act.target && act'.kind == act.kind
    requires act.entered + act.waiting == Route(w, act) && act.waiting != []
    ensures w'.owners[act'.target].lineage != [] && Route(w', act') == Route(w, act)
    ensures act.waiting[0] !in act.entered && act.entered <= Route(w, act)
    ensures (act.entered + [act.waiting[0]]) + act.waiting[1..] == Route(w, act)
  {
    RouteDistinct(w, act);
    RoutesKept(w, w', act.target);
    NextIsNew(act.entered, act.waiting);
  }

  lemma NextIsNew(entered: seq<nat>, waiting: seq<nat>)
    requires Distinct(entered + waiting) && waiting != []
    ensures waiting[0] !in entered && (entered + [waiting[0]]) + waiting[1..] == entered + waiting
  {
    var r := entered + waiting;
    assert forall i | 0 <= i < |entered| :: r[i] == entered[i] && r[i] != r[|entered|];
  }

  lemma EnterAct(w: World, a: nat)
    requires Enabled(w, EnterNext(a)) && ActOk(w, a) && CloserOk(w, a)
    ensures w.acts[a].waiting[0] !in w.acts[a].entered
    ensures ActOk(EnterOwner(w, a), a) && CloserOk(EnterOwner(w, a), a)
  {
    hide LineageOk, Route;
    var w' := EnterOwner(w, a);
    RoutesKept(w, w', w.acts[a].target);
    EnterRoute(w, w', w.acts[a], w'.acts[a]);
  }

  lemma EnterLife(w: World, a: nat, y: nat)
    requires Enabled(w, EnterNext(a)) && y in w.owners && LifeOk(w, y) && Counted(w, y)
    ensures LifeOk(EnterOwner(w, a), y)
  {}

  lemma EnterCount(w: World, a: nat, y: nat)
    requires Enabled(w, EnterNext(a)) && y in w.owners && Counted(w, y)
    requires w.acts[a].waiting[0] !in w.acts[a].entered
    ensures Counted(EnterOwner(w, a), y)
  {
    var w' := EnterOwner(w, a);
    if w.owners[w.acts[a].waiting[0]].closing {
      CountSame(w, w');
    } else {
      CountEnter(w, w', a, w.acts[a].waiting[0]);
    }
  }

  lemma InvAct(w: World, a: nat)
    requires Inv(w) && a in w.acts
    ensures ActOk(w, a) && w.acts[a].target in w.owners && CloserOk(w, a)
  {
    assert ActOk(w, a) && CloserOk(w, a);
  }

  lemma EnterKeepsInv(w: World, a: nat)
    requires Inv(w) && Enabled(w, EnterNext(a))
    ensures Inv(EnterOwner(w, a))
  {
    hide LineageOk, ActOk, LifeOk, Counted, CloserOk, Holders, Route;
    var w' := EnterOwner(w, a);
    InvAct(w, a);
    EnterAct(w, a);
    OthersKept(w, w', a);
    forall y | y in w'.owners ensures LifeOk(w', y) && Counted(w', y) {
      EnterLife(w, a, y);
      EnterCount(w, a, y);
    }
  }

  lemma LeaveAct(w: World, a: nat)
    requires Enabled(w, LeaveNext(a)) && ActOk(w, a) && CloserOk(w, a)
    ensures Distinct(w.acts[a].entered)
    ensures ActOk(LeaveOwner(w, a), a) && CloserOk(LeaveOwner(w, a), a)
  {
    var w' := LeaveOwner(w, a);
    var act, act' := w.acts[a], w'.acts[a];
    RoutesKept(w, w', act.target);
    RouteDistinct(w, act);
    assert Route(w', act') == Route(w, act);
    assert act'.entered == act.entered[..|act'.entered|] == Route(w, act)[..|act.entered|][..|act'.entered|];
  }

  lemma LeaveLife(w: World, a: nat, y: nat)
    requires Enabled(w, LeaveNext(a)) && y in w.owners && LifeOk(w, y) && Counted(w, y)
    ensures LifeOk(LeaveOwner(w, a), y)
  {
    assert a in Holders(w, Last(w.acts[a].entered));
  }

  lemma LeaveCount(w: World, a: nat, y: nat)
    requires Enabled(w, LeaveNext(a)) && y in w.owners && Counted(w, y) && Distinct(w.acts[a].entered)
    ensures Counted(LeaveOwner(w, a), y)
  {
    CountLeave(w, LeaveOwner(w, a), a);
  }

  lemma LeaveKeepsInv(w: World, a: nat)
    requires Inv(w) && Enabled(w, LeaveNext(a))
    ensures Inv(LeaveOwner(w, a))
  {
    hide LineageOk, ActOk, LifeOk, Counted, CloserOk, Holders, Route;
    var w' := LeaveOwner(w, a);
    InvAct(w, a);
    LeaveAct(w, a);
    OthersKept(w, w', a);
    forall y | y in w'.owners ensures LifeOk(w', y) && Counted(w', y) {
      LeaveLife(w, a, y);
      LeaveCount(w, a, y);
    }
  }

  lemma CloseLife(w: World, a: nat, x: nat, y: nat)
    requires Enabled(w, StartClose(a, x)) && !w.owners[x].closing && y in w.owners
    requires LifeOk(w, y) && Counted(w, y)
    ensures LifeOk(CloseOwner(w, a, x), y)
  {}

  lemma CloseCount(w: World, a: nat, x: nat, y: nat)
    requires Enabled(w, StartClose(a, x)) && !w.owners[x].closing && y in w.owners && Counted(w, y)
    requires a !in w.acts
    ensures Counted(CloseOwner(w, a, x), y)
  {
    var w' := CloseOwner(w, a, x);
    if y == x {
      assert Holders(w', y) == Holders(w, y) + {a};
    } else {
      assert Holders(w', y) == Holders(w, y);
    }
  }

  lemma CloseAct(w: World, a: nat, x: nat)
    requires Enabled(w, StartClose(a, x)) && !w.owners[x].closing && LineageOk(w, x) && LifeOk(w, x)
    ensures ActOk(CloseOwner(w, a, x), a) && CloserOk(CloseOwner(w, a, x), a)
    ensures w.owners[x].closer.None?
  {
    RoutesKept(w, CloseOwner(w, a, x), x);
  }

  lemma CloseKeepsInv(w: World, a: nat, x: nat)
    requires Inv(w) && Enabled(w, StartClose(a, x))
    ensures Inv(CloseOwner(w, a, x))
  {
    hide LineageOk, ActOk, LifeOk, Counted, CloserOk, Holders, Route;
    var w' := CloseOwner(w, a, x);
    if !w.owners[x].closing {
      ActsStarted(w);
      CloseAct(w, a, x);
      OthersKept(w, w', a);
      forall y | y in w'.owners ensures LifeOk(w', y) && Counted(w', y) {
        CloseLife(w, a, x, y);
        CloseCount(w, a, x, y);
      }
    }
  }

  lemma StartAct(w: World, a: nat, x: nat)
    requires Enabled(w, StartOperation(a, x)) && LineageOk(w, x)
    ensures ActOk(Apply(w, StartOperation(a, x)), a) && CloserOk(Apply(w, StartOperation(a, x)), a)
  {
    RoutesKept(w, Apply(w, StartOperation(a, x)), x);
  }

  lemma StartLife(w: World, a: nat, x: nat, y: nat)
    requires Enabled(w, StartOperation(a, x)) && a !in w.acts && y in w.owners && LifeOk(w, y) && Counted(w, y)
    ensures LifeOk(Apply(w, StartOperation(a, x)), y) && Counted(Apply(w, StartOperation(a, x)), y)
  {
    CountSame(w, Apply(w, StartOperation(a, x)));
  }

  lemma StartKeepsInv(w: World, a: nat, x: nat)
    requires Inv(w) && Enabled(w, StartOperation(a, x))
    ensures Inv(Apply(w, StartOperation(a, x)))
  {
    var w' := Apply(w, StartOperation(a, x));
    ActsStarted(w);
    StartAct(w, a, x);
    forall y | y in w'.owners ensures LifeOk(w', y) && Counted(w', y) {
      StartLife(w, a, x, y);
    }
    hide LineageOk, ActOk, LifeOk, Counted, CloserOk, Holders, Route;
    OthersKept(w, w', a);
  }

  lemma WorkLife(w: World, e: Event, y: nat)
    requires Enabled(w, e) && (e.BeginWork? || e.EndWork? || e.Finish?) && y in w.owners
    requires ActOk(w, e.act) && CloserOk(w, e.act) && LifeOk(w, y) && LifeOk(w, w.acts[e.act].target)
    ensures LifeOk(Apply(w, e), y)
  {}

  lemma WorkAct(w: World, e: Event)
    requires Enabled(w, e) && (e.BeginWork? || e.EndWork?) && ActOk(w, e.act) && CloserOk(w, e.act)
    ensures ActOk(Apply(w, e), e.act) && CloserOk(Apply(w, e), e.act)
  {
    var w' := Apply(w, e);
    var act := w.acts[e.act];
    RoutesKept(w, w', act.target);
    assert Route(w', w'.acts[e.act]) == Route(w, act);
    if e.BeginWork? {
      assert act.entered + act.waiting == act.entered;
    }
  }

  lemma WorkCount(w: World, e: Event, y: nat)
    requires Enabled(w, e) && (e.BeginWork? || e.EndWork? || e.Finish?) && y in w.owners && Counted(w, y)
    ensures Counted(Apply(w, e), y)
  {
    CountSame(w, Apply(w, e));
  }

  lemma WorkKeepsInv(w: World, e: Event)
    requires Inv(w) && Enabled(w, e) && (e.BeginWork? || e.EndWork? || e.Finish?)
    ensures Inv(Apply(w, e))
  {
    hide LineageOk, ActOk, LifeOk, Counted, CloserOk, Holders, Route;
    var w' := Apply(w, e);
    InvAct(w, e.act);
    OthersKept(w, w', e.act);
    if !e.Finish? {
      WorkAct(w, e);
    }
    forall y | y in w'.owners ensures LifeOk(w', y) && Counted(w', y) {
      WorkLife(w, e, y);
      WorkCount(w, e, y);
    }
  }

  lemma CrashKeepsInv(w: World, p: nat)
    requires Inv(w)
    ensures Inv(Apply(w, Crash(p)))
  {
    var w' := Apply(w, Crash(p));
    forall x | x in w'.owners ensures LineageOk(w', x) && LifeOk(w', x) && Counted(w', x) {
      assert LineageOk(w, x) && LifeOk(w, x) && Counted(w, x);
      forall a | a in w.acts && x in w.acts[a].entered ensures a in w'.acts {
        assert ActOk(w, a);
        RouteDistinct(w, w.acts[a]);
        assert x in Route(w, w.acts[a]);
      }
      assert Holders(w', x) == Holders(w, x);
    }
    forall a | a in w'.acts ensures ActOk(w', a) && CloserOk(w', a) {
      assert ActOk(w, a) && CloserOk(w, a);
    }
  }

  /** Every step of every thread keeps the invariant. */
  lemma StepKeepsInv(w: World, e: Event)
    requires Inv(w) && Enabled(w, e)
    ensures Inv(Apply(w, e))
  {
    match e
    case Create(x, parent, process) => CreateKeepsInv(w, x, parent, process);
    case StartOperation(a, x) => StartKeepsInv(w, a, x);
    case StartClose(a, x) => CloseKeepsInv(w, a, x);
    case EnterNext(a) => EnterKeepsInv(w, a);
    case LeaveNext(a) => LeaveKeepsInv(w, a);
    case Crash(p) => CrashKeepsInv(w, p);
    case _ => WorkKeepsInv(w, e);
  }

  // ----------------------------------------------------------------- theorems

  /** While an operation or a cleanup runs, its owner and every ancestor hold a
      lease for it and have not released anything. */
  lemma WorkKeepsOwnership(w: World, a: nat, x: nat)
    requires Inv(w) && a in w.acts && w.acts[a].phase.Working? && w.acts[a].target in w.owners
    requires x in w.owners[w.acts[a].target].lineage
    ensures x in w.owners && a in Holders(w, x)
    ensures w.owners[x].active >= 1 && w.owners[x].releases == 0
  {
    assert ActOk(w, a);
    RouteDistinct(w, w.acts[a]);
    assert a in Holders(w, x);
    assert LifeOk(w, x) && Counted(w, x);
  }

  /** No new lease is taken on an owner once it is closing. */
  lemma NoLeaseAfterClose(w: World, e: Event, x: nat)
    requires Inv(w) && Enabled(w, e) && x in w.owners && w.owners[x].closing
    ensures Holders(Apply(w, e), x) <= Holders(w, x)
  {
    hide LifeOk, CloserOk, LineageOk, Route, Counted;
    forall a | a in Holders(Apply(w, e), x) ensures a in Holders(w, x) {
      if a in w.acts {
        assert ActOk(w, a);
      }
    }
  }

  /** Marking an owner and releasing it each have one cause. */
  lemma StepMarks(w: World, e: Event, x: nat)
    requires Enabled(w, e) && x in Apply(w, e).owners && !e.LeaveNext? && !e.Crash?
    ensures x in w.owners || (e.Create? && e.owner == x)
    ensures var life' := Apply(w, e).owners[x];
            if x in w.owners
            then life'.releases == w.owners[x].releases
                 && (life'.closing ==> w.owners[x].closing || (e.StartClose? && e.target == x))
            else life'.releases == 0 && !life'.closing
  {}

  /** Releases happen in one place: the step that takes the last lease of a
      closing owner; afterwards the count never moves again. */
  lemma ReleasedByLastLeave(w: World, e: Event, x: nat)
    requires Inv(w) && Enabled(w, e) && x in w.owners && x in Apply(w, e).owners
    ensures var w' := Apply(w, e);
            w'.owners[x].releases != w.owners[x].releases <==>
            e.LeaveNext? && Last(w.acts[e.act].entered) == x && w.owners[x].closing && w.owners[x].active == 1
    ensures Apply(w, e).owners[x].releases <= 1
  {
    hide LineageOk, ActOk, Counted, CloserOk, Holders, Route;
    StepKeepsInv(w, e);
    assert LifeOk(Apply(w, e), x);
  }

  /** However many threads call `close`, the cleanup runs at most once, and only
      inside the call that marked the owner. */
  lemma CleanupRunsOnce(w: World, a: nat, b: nat)
    requires Inv(w) && a in w.acts && b in w.acts
    requires w.acts[a].kind.Closing? && w.acts[b].kind.Closing? && w.acts[a].target == w.acts[b].target
    ensures a == b
    ensures w.acts[a].target in w.owners && w.owners[w.acts[a].target].cleanups <= 1
    ensures w.acts[a].phase.Entering? ==> w.owners[w.acts[a].target].cleanups == 0
  {
    assert ActOk(w, a) && CloserOk(w, a) && CloserOk(w, b);
    assert LifeOk(w, w.acts[a].target);
  }

  // ------------------------------------------------------------ operations get to work

  ghost predicate Runs(w: World, es: seq<Event>)
    decreases es
  {
    es == [] || (Enabled(w, es[0]) && Runs(Apply(w, es[0]), es[1..]))
  }

  ghost function After(w: World, es: seq<Event>): World
    requires Runs(w, es)
    decreases es
  {
    if es == [] then w else After(Apply(w, es[0]), es[1..])
  }

  ghost predicate CanWork(w: World, a: nat) {
    exists es :: Runs(w, es) && a in After(w, es).acts && After(w, es).acts[a].phase.Working?
  }

  lemma CanWorkLater(w: World, e: Event, a: nat)
    requires Enabled(w, e) && CanWork(Apply(w, e), a)
    ensures CanWork(w, a)
  {
    hide Enabled, Apply;
    var es :| Runs(Apply(w, e), es) && a in After(Apply(w, e), es).acts
              && After(Apply(w, e), es).acts[a].phase.Working?;
    assert ([e] + es)[0] == e && ([e] + es)[1..] == es;
    assert Runs(w, [e] + es);
  }

  ghost predicate AllOpen(w: World, xs: seq<nat>) {
    forall i | 0 <= i < |xs| :: xs[i] in w.owners && !w.owners[xs[i]].closing
  }

  lemma {:induction false} EnteringCanWork(w: World, a: nat)
    requires a in w.acts && w.acts[a].phase.Entering? && w.acts[a].target in w.owners && AllOpen(w, w.acts[a].waiting)
    ensures CanWork(w, a)
    decreases |w.acts[a].waiting|
  {
    if w.acts[a].waiting == [] {
      var w' := Apply(w, BeginWork(a));
      assert Runs(w', []) && After(w', []) == w';
      CanWorkLater(w, BeginWork(a), a);
    } else {
      EnteringCanWork(Apply(w, EnterNext(a)), a);
      CanWorkLater(w, EnterNext(a), a);
    }
  }

  /** An operation that starts while no owner of the lineage is closing can get to its
      work, whatever is going on in these owners otherwise. */
  lemma OpenOwnersCanBeUsed(w: World, a: nat, x: nat)
    requires Inv(w) && x in w.owners && a !in w.started && AllOpen(w, w.owners[x].lineage)
    ensures CanWork(w, a)
  {
    hide Inv, LineageOk;
    EnteringCanWork(Apply(w, StartOperation(a, x)), a);
    CanWorkLater(w, StartOperation(a, x), a);
  }
}
