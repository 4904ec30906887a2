/** Destination locks (destination_lock.py): the kernel's lock table and the
    key-by-key acquisition that `DestinationLock.add_paths` performs, as a state
    machine in which any number of owners take turns after every kernel call. */
module LockTable {
  import opened Collections

  type Name = string

  /** Components of a resolved absolute path; the file system root is []. */
  type Path = seq<Name>

  /** `_key`: a path after normalisation and case folding, which act on each component. */
  type Key = seq<Name>

  /** The normalisation of one component, and the file name a key is hashed to.
      Neither is assumed injective: a collision can only refuse more requests. */
  datatype Naming = Naming(fold: Name -> Name, digest: Key -> nat)

  function KeyOf(n: Naming, path: Path): Key {
    seq(|path|, i requires 0 <= i < |path| => n.fold(path[i]))
  }

  /** Folding acts on components, so the key of a parent directory is the key
      cut short: `resolved.parents` and the proper prefixes name the same keys. */
  lemma KeyOfParent(n: Naming, path: Path, i: nat)
    requires i <= |path|
    ensures KeyOf(n, path[..i]) == KeyOf(n, path)[..i]
  {}

  /** One trees contains the other, or they are the same tree. */
  predicate Overlap(a: Key, b: Key) {
    a <= b || b <= a
  }

  /** `_requirements`: every path exclusively, every proper ancestor shared;
      a key that is both is exclusive. */
  ghost function Requirements(n: Naming, paths: set<Path>): map<Key, bool> {
    map k | k in RequiredKeys(n, paths) :: IsTarget(n, paths, k)
  }

  ghost function RequiredKeys(n: Naming, paths: set<Path>): set<Key> {
    set p, i | p in paths && 0 <= i <= |p| :: KeyOf(n, p)[..i]
  }

  ghost predicate IsTarget(n: Naming, paths: set<Path>, k: Key) {
    exists p :: p in paths && KeyOf(n, p) == k
  }

  /** One open lock file: the owner that opened it and the key it stands for. */
  datatype Handle = Handle(owner: nat, key: Key)

  /** The kernel's view: every granted lock, true when exclusive. */
  type Table = map<Handle, bool>

  /** When a non-blocking request succeeds: nobody holds the file exclusively,
      and nobody holds it at all when the request is exclusive. */
  predicate CanLock(n: Naming, t: Table, key: Key, exclusive: bool) {
    forall h | h in t && n.digest(h.key) == n.digest(key) :: !exclusive && !t[h]
  }

  /** An `add_paths` call in progress: the paths asked for, the keys not yet
      visited, the keys this call locked, and the locks held when it began. */
  datatype Adding =
    | Quiet
    | Adding(paths: set<Path>, todo: set<Key>, acquired: seq<Key>, before: map<Key, bool>, failing: bool)

  /** `held` is `_handles` with `_exclusive`; `granted` the paths of every completed call. */
  datatype Holder = Holder(held: map<Key, bool>, adding: Adding, granted: set<Path>)

  datatype World = World(table: Table, holders: map<nat, Holder>)

  datatype Event =
    | Open(owner: nat)
    | Begin(owner: nat, paths: set<Path>)
    | Visit(owner: nat, key: Key)
    | IoFailure(owner: nat)
    | Undo(owner: nat)
    | End(owner: nat)
    | Release(owner: nat)
    | Crash(owners: set<nat>)

  ghost predicate Enabled(n: Naming, w: World, e: Event) {
    match e
    case Open(x) => x !in w.holders
    case Crash(_) => true
    case _ =>
      e.owner in w.holders &&
      var a := w.holders[e.owner].adding;
      match e
      case Begin(_, _) => a.Quiet?
      case Release(_) => a.Quiet?
      case Visit(_, key) => a.Adding? && !a.failing && key in a.todo
      case IoFailure(_) => a.Adding? && !a.failing && a.todo != {}
      case Undo(_) => a.Adding? && a.failing && a.acquired != []
      case End(_) => a.Adding? && if a.failing then a.acquired == [] else a.todo == {}
  }

  ghost function WithHolder(w: World, x: nat, h: Holder): World {
    w.(holders := w.holders[x := h])
  }

  /** The loop body of `add_paths` for one required key. */
  ghost function VisitKey(n: Naming, w: World, x: nat, key: Key): World
    requires x in w.holders && w.holders[x].adding.Adding?
  {
    var h := w.holders[x];
    var a := h.adding;
    var exclusive := IsTarget(n, a.paths, key);
    if key in h.held then
      if exclusive && !h.held[key]
      then WithHolder(w, x, h.(adding := a.(failing := true)))
      else WithHolder(w, x, h.(adding := a.(todo := a.todo - {key})))
    else if CanLock(n, w.table, key, exclusive) then
      World(w.table[Handle(x, key) := exclusive],
            w.holders[x := h.(held := h.held[key := exclusive],
                              adding := a.(todo := a.todo - {key}, acquired := a.acquired + [key]))])
    else WithHolder(w, x, h.(adding := a.(failing := true)))
  }

  /** One turn of the roll-back loop: the last key locked is closed first. */
  ghost function UndoLast(w: World, x: nat): World
    requires x in w.holders && w.holders[x].adding.Adding? && w.holders[x].adding.acquired != []
  {
    var h := w.holders[x];
    var a := h.adding;
    var key := a.acquired[|a.acquired| - 1];
    World(w.table - {Handle(x, key)},
          w.holders[x := h.(held := h.held - {key}, adding := a.(acquired := a.acquired[..|a.acquired| - 1]))])
  }

  /** The kernel drops every lock of the owners whose handles are closed. */
  ghost function WithoutOwners(t: Table, owners: set<nat>): Table {
    map h | h in t && h.owner !in owners :: t[h]
  }

  ghost function Apply(n: Naming, w: World, e: Event): World
    requires Enabled(n, w, e)
  {
    match e
    case Open(x) => WithHolder(w, x, Holder(map[], Quiet, {}))
    case Begin(x, paths) =>
      var h := w.holders[x];
      WithHolder(w, x, h.(adding := Adding(paths, RequiredKeys(n, paths), [], h.held, false)))
    case Visit(x, key) => VisitKey(n, w, x, key)
    case IoFailure(x) =>
      var h := w.holders[x];
      WithHolder(w, x, h.(adding := h.adding.(failing := true)))
    case Undo(x) => UndoLast(w, x)
    case End(x) =>
      var h := w.holders[x];
      WithHolder(w, x, h.(adding := Quiet, granted := if h.adding.failing then h.granted
          else h.granted + h.adding.paths))
    case Release(x) =>
      World(WithoutOwners(w.table, {x}), w.holders[x := Holder(map[], Quiet, {})])
    case Crash(xs) => World(WithoutOwners(w.table, xs), w.holders - xs)
  }

  // ---------------------------------------------------------------- invariant

  /** A lock held exclusively is the only lock on its file. */
  ghost predicate TableSafe(n: Naming, t: Table) {
    forall g, h | g in t && h in t && g != h && n.digest(g.key) == n.digest(h.key) :: !t[g]
  }

  /** The kernel and the owners agree about who holds what. */
  ghost predicate Agrees(w: World) {
    && (forall h | h in w.table :: h.owner in w.holders && h.key in w.holders[h.owner].held
                                  && w.holders[h.owner].held[h.key] == w.table[h])
    && (forall x, k | x in w.holders && k in w.holders[x].held :: Handle(x, k) in w.table)
  }

  /** Every path is locked exclusively and each of its ancestors is locked. */
  ghost predicate Covered(n: Naming, held: map<Key, bool>, paths: set<Path>) {
    && (forall p | p in paths :: KeyOf(n, p) in held && held[KeyOf(n, p)])
    && (forall p, i | p in paths && 0 <= i <= |p| :: KeyOf(n, p)[..i] in held)
  }

  /** The locks an owner keeps whatever happens to the call in progress. */
  ghost function Settled(h: Holder): map<Key, bool> {
    if h.adding.Adding? then h.adding.before else h.held
  }

  /** An unfinished call has added exactly the keys in `acquired`, each in the
      mode it needs, and has visited every key it no longer lists. */
  ghost predicate Progress(n: Naming, held: map<Key, bool>, a: Adding)
    requires a.Adding?
  {
    && Distinct(a.acquired)
    && a.todo <= RequiredKeys(n, a.paths)
    && (forall k | k in a.acquired :: k in held && k !in a.before && k in RequiredKeys(n, a.paths)
                                      && held[k] == IsTarget(n, a.paths, k))
    && (forall k | k in held :: k in a.before || k in a.acquired)
    && (forall k | k in a.before :: k in held && held[k] == a.before[k])
    && (!a.failing ==> forall k | k in RequiredKeys(n, a.paths) && k !in a.todo ::
                         k in held && (IsTarget(n, a.paths, k) ==> held[k]))
  }

  ghost predicate HolderOk(n: Naming, h: Holder) {
    && Covered(n, Settled(h), h.granted)
    && (h.adding.Adding? ==> Progress(n, h.held, h.adding))
  }

  ghost predicate Inv(n: Naming, w: World) {
    && TableSafe(n, w.table)
    && Agrees(w)
    && forall x | x in w.holders :: HolderOk(n, w.holders[x])
  }

  /** Changing one owner's record, not its locks, leaves the rest of the world in order. */
  lemma RecordKeepsInv(n: Naming, w: World, x: nat, h: Holder)
    requires Inv(n, w) && x in w.holders && h.held == w.holders[x].held && HolderOk(n, h)
    ensures Inv(n, WithHolder(w, x, h))
  {}

  lemma GrantKeepsTableSafe(n: Naming, t: Table, g: Handle, exclusive: bool)
    requires TableSafe(n, t) && g !in t && CanLock(n, t, g.key, exclusive)
    ensures TableSafe(n, t[g := exclusive])
  {}

  lemma GrantKeepsAgreement(w: World, x: nat, key: Key, exclusive: bool, h: Holder)
    requires Agrees(w) && x in w.holders && h.held == w.holders[x].held[key := exclusive]
    ensures Agrees(World(w.table[Handle(x, key) := exclusive], w.holders[x := h]))
  {
    var t, holders := w.table[Handle(x, key) := exclusive], w.holders[x := h];
    forall g | g in t
      ensures g.owner in holders && g.key in holders[g.owner].held && holders[g.owner].held[g.key] == t[g]
    {
      if g != Handle(x, key) {
        assert g in w.table;
      }
    }
    forall y, k | y in holders && k in holders[y].held
      ensures Handle(y, k) in t
    {
      if y != x || k != key {
        assert y in w.holders && k in w.holders[y].held;
      }
    }
  }

  lemma GrantKeepsProgress(n: Naming, h: Holder, key: Key)
    requires HolderOk(n, h) && h.adding.Adding? && key !in h.held && key in h.adding.todo
    ensures HolderOk(n, h.(held := h.held[key := IsTarget(n, h.adding.paths, key)],
                           adding := h.adding.(todo := h.adding.todo - {key}, acquired := h.adding.acquired + [key])))
  {
    var a := h.adding;
    var acquired := a.acquired + [key];
    assert key !in a.acquired && acquired[|a.acquired|] == key;
    assert forall k :: k in acquired <==> k in a.acquired || k == key;
  }

  lemma VisitKeepsInv(n: Naming, w: World, x: nat, key: Key)
    requires Inv(n, w) && Enabled(n, w, Visit(x, key))
    ensures Inv(n, VisitKey(n, w, x, key))
  {
    var h := w.holders[x];
    var exclusive := IsTarget(n, h.adding.paths, key);
    assert HolderOk(n, h);
    if key !in h.held && CanLock(n, w.table, key, exclusive) {
      GrantKeepsProgress(n, h, key);
      assert Handle(x, key) !in w.table;
      GrantKeepsTableSafe(n, w.table, Handle(x, key), exclusive);
      GrantKeepsAgreement(w, x, key, exclusive, VisitKey(n, w, x, key).holders[x]);
    } else {
      RecordKeepsInv(n, w, x, VisitKey(n, w, x, key).holders[x]);
    }
  }

  lemma DropKeepsAgreement(w: World, x: nat, key: Key, h: Holder)
    requires Agrees(w) && x in w.holders && h.held == w.holders[x].held - {key}
    ensures Agrees(World(w.table - {Handle(x, key)}, w.holders[x := h]))
  {
    var t, holders := w.table - {Handle(x, key)}, w.holders[x := h];
    forall y, k | y in holders && k in holders[y].held
      ensures Handle(y, k) in t
    {
      assert y in w.holders && k in w.holders[y].held;
    }
  }

  lemma UndoKeepsProgress(n: Naming, h: Holder)
    requires HolderOk(n, h) && h.adding.Adding? && h.adding.failing && h.adding.acquired != []
    ensures var a := h.adding.acquired;
            HolderOk(n, h.(held := h.held - {a[|a| - 1]}, adding := h.adding.(acquired := a[..|a| - 1])))
  {
    var a := h.adding.acquired;
    var key, rest := a[|a| - 1], a[..|a| - 1];
    assert a == rest + [key] && key !in rest;
    assert forall k :: k in a <==> k in rest || k == key;
  }

  lemma UndoKeepsInv(n: Naming, w: World, x: nat)
    requires Inv(n, w) && Enabled(n, w, Undo(x))
    ensures Inv(n, UndoLast(w, x))
  {
    var h := w.holders[x];
    var a := h.adding.acquired;
    UndoKeepsProgress(n, h);
    DropKeepsAgreement(w, x, a[|a| - 1], UndoLast(w, x).holders[x]);
  }

  lemma EndCovers(n: Naming, h: Holder)
    requires HolderOk(n, h) && h.adding.Adding? && !h.adding.failing && h.adding.todo == {}
    ensures Covered(n, h.held, h.adding.paths)
  {
    var a := h.adding;
    forall p, i | p in a.paths && 0 <= i <= |p|
      ensures KeyOf(n, p)[..i] in h.held
    {
      assert KeyOf(n, p)[..i] in RequiredKeys(n, a.paths);
    }
    forall p | p in a.paths
      ensures KeyOf(n, p) in h.held && h.held[KeyOf(n, p)]
    {
      assert KeyOf(n, p)[..|p|] == KeyOf(n, p);
      assert IsTarget(n, a.paths, KeyOf(n, p));
    }
  }

  lemma EndKeepsInv(n: Naming, w: World, x: nat)
    requires Inv(n, w) && Enabled(n, w, End(x))
    ensures Inv(n, Apply(n, w, End(x)))
  {
    var h := w.holders[x];
    assert HolderOk(n, h);
    if !h.adding.failing {
      EndCovers(n, h);
    }
    RecordKeepsInv(n, w, x, Apply(n, w, End(x)).holders[x]);
  }

  lemma DropKeepsInv(n: Naming, w: World, xs: set<nat>)
    requires Inv(n, w)
    ensures Inv(n, World(WithoutOwners(w.table, xs), w.holders - xs))
  {}

  lemma ReleaseKeepsInv(n: Naming, w: World, x: nat)
    requires Inv(n, w) && x in w.holders
    ensures Inv(n, World(WithoutOwners(w.table, {x}), w.holders[x := Holder(map[], Quiet, {})]))
  {
    DropKeepsInv(n, w, {x});
    hide Inv, WithoutOwners;
    OpenKeepsInv(n, World(WithoutOwners(w.table, {x}), w.holders - {x}), x);
    assert w.holders[x := Holder(map[], Quiet, {})] == (w.holders - {x})[x := Holder(map[], Quiet, {})];
  }

  lemma OpenKeepsInv(n: Naming, w: World, x: nat)
    requires Inv(n, w) && x !in w.holders
    ensures Inv(n, w.(holders := w.holders[x := Holder(map[], Quiet, {})]))
  {}

  /** Every step of every owner keeps the invariant. */
  lemma StepKeepsInv(n: Naming, w: World, e: Event)
    requires Inv(n, w) && Enabled(n, w, e)
    ensures Inv(n, Apply(n, w, e))
  {
    match e
    case Open(x) => OpenKeepsInv(n, w, x);
    case Begin(x, paths) =>
      var h := w.holders[x];
      assert HolderOk(n, h);
      RecordKeepsInv(n, w, x, Apply(n, w, e).holders[x]);
    case Visit(x, key) => VisitKeepsInv(n, w, x, key);
    case IoFailure(x) =>
      var h := w.holders[x];
      assert HolderOk(n, h);
      RecordKeepsInv(n, w, x, Apply(n, w, e).holders[x]);
    case Undo(x) => UndoKeepsInv(n, w, x);
    case End(x) => EndKeepsInv(n, w, x);
    case Release(x) => ReleaseKeepsInv(n, w, x);
    case Crash(xs) => DropKeepsInv(n, w, xs);
  }

  /** A completed call adds exactly the required keys it did not hold, each in
      its required mode, and changes no other lock. */
  lemma SuccessAddsRequirements(n: Naming, h: Holder)
    requires HolderOk(n, h) && h.adding.Adding? && !h.adding.failing && h.adding.todo == {}
    ensures h.held == Requirements(n, h.adding.paths) + h.adding.before
  {
    var r := Requirements(n, h.adding.paths);
    forall k | k in h.held ensures k in r + h.adding.before {}
  }

  /** Where a call ends, its owner's record says which of the two outcomes it had. */
  lemma EndOutcome(n: Naming, w: World, x: nat)
    requires Enabled(n, w, End(x)) && HolderOk(n, w.holders[x])
    ensures var h, h' := w.holders[x], Apply(n, w, End(x)).holders[x];
            if h.adding.failing then h' == Holder(h.adding.before, Quiet, h.granted)
            else h' == Holder(Requirements(n, h.adding.paths) + h.adding.before, Quiet, h.granted + h.adding.paths)
  {
    var h := w.holders[x];
    if h.adding.failing {
      assert h.held == h.adding.before;
    } else {
      SuccessAddsRequirements(n, h);
    }
  }

  /** No lock step short of the owner's own release or crash takes a settled lock away. */
  lemma StepKeepsSettled(n: Naming, w: World, e: Event, x: nat)
    requires Enabled(n, w, e) && x in w.holders && HolderOk(n, w.holders[x])
    requires e != Release(x) && !(e.Crash? && x in e.owners)
    ensures x in Apply(n, w, e).holders
    ensures var h, h' := w.holders[x], Apply(n, w, e).holders[x];
            h.granted <= h'.granted && forall k | k in Settled(h) :: k in h'.held && h'.held[k] == Settled(h)[k]
  {
    var h := w.holders[x];
    if e == Undo(x) {
      assert h.adding.acquired[|h.adding.acquired| - 1] in h.adding.acquired;
    }
  }

  /** What a call in progress set out from changes only when that call ends. */
  lemma StepKeepsCall(n: Naming, w: World, e: Event, x: nat)
    requires Enabled(n, w, e) && x in w.holders && w.holders[x].adding.Adding?
    requires e != End(x) && !(e.Crash? && x in e.owners)
    ensures x in Apply(n, w, e).holders && Apply(n, w, e).holders[x].adding.Adding?
    ensures var h, h' := w.holders[x], Apply(n, w, e).holders[x];
            && h'.adding.before == h.adding.before && h'.adding.paths == h.adding.paths && h'.granted == h.granted
  {}

  /** A granted path has its own lock file locked exclusively and the file of
      every ancestor locked, in the kernel's table. */
  lemma GrantedIsLocked(n: Naming, w: World, x: nat, p: Path)
    requires Inv(n, w) && x in w.holders && p in w.holders[x].granted
    ensures Handle(x, KeyOf(n, p)) in w.table && w.table[Handle(x, KeyOf(n, p))]
    ensures forall i | 0 <= i <= |p| :: Handle(x, KeyOf(n, p)[..i]) in w.table
  {
    var h := w.holders[x];
    assert Covered(n, Settled(h), h.granted);
    forall i | 0 <= i <= |p|
      ensures Handle(x, KeyOf(n, p)[..i]) in w.table
    {
      assert KeyOf(n, p)[..i] in Settled(h);
    }
    assert KeyOf(n, p) in Settled(h);
  }

  lemma InnerTreeIsRefused(n: Naming, w: World, x: nat, y: nat, p: Path, q: Path)
    requires Inv(n, w) && x != y && x in w.holders && y in w.holders
    requires p in w.holders[x].granted && q in w.holders[y].granted
    ensures !(KeyOf(n, p) <= KeyOf(n, q))
  {
    GrantedIsLocked(n, w, x, p);
    if KeyOf(n, p) <= KeyOf(n, q) {
      PrefixIsLocked(n, w, y, q, KeyOf(n, p));
    }
  }

  lemma PrefixIsLocked(n: Naming, w: World, y: nat, q: Path, key: Key)
    requires Inv(n, w) && y in w.holders && q in w.holders[y].granted && key <= KeyOf(n, q)
    ensures Handle(y, key) in w.table
  {
    GrantedIsLocked(n, w, y, q);
    assert key == KeyOf(n, q)[..|key|];
  }

  /** Two completed `add_paths` calls of different owners never overlap: no tree
      is granted twice and no granted tree lies inside another owner's. */
  lemma GrantedTreesAreDisjoint(n: Naming, w: World, x: nat, y: nat, p: Path, q: Path)
    requires Inv(n, w) && x != y && x in w.holders && y in w.holders
    requires p in w.holders[x].granted && q in w.holders[y].granted
    ensures !Overlap(KeyOf(n, p), KeyOf(n, q))
  {
    InnerTreeIsRefused(n, w, x, y, p, q);
    InnerTreeIsRefused(n, w, y, x, q, p);
  }
}
