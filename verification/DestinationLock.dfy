/** `DestinationLock` itself (destination_lock.py): one owner's dictionaries and
    counters, updated in place, over a kernel table shared with every other owner. */
module DestinationLocks {
  import opened Collections
  import opened LockTable

  /** `_requirements`: the loops that fill the dictionary. */
  method ComputeRequirements(n: Naming, paths: seq<Path>) returns (required: map<Key, bool>)
    ensures required == Requirements(n, set p | p in paths)
  {
    required := map[];
    for i := 0 to |paths|
      invariant required == Requirements(n, set p | p in paths[..i])
    {
      required := RequirePath(required, KeyOf(n, paths[i]));
      RequirementsGrow(n, paths[..i], paths[i]);
      assert paths[..i + 1] == paths[..i] + [paths[i]];
    }
    assert paths[..|paths|] == paths;
  }

  /** One path's turn: `setdefault` for every ancestor, then the path itself. */
  method RequirePath(before: map<Key, bool>, key: Key) returns (required: map<Key, bool>)
    ensures required == AlsoRequired(before, key)
  {
    required := before;
    for length := 0 to |key|
      invariant required.Keys == before.Keys + set j | 0 <= j < length :: key[..j]
      invariant forall k | k in required :: required[k] == (k in before && before[k])
    {
      if key[..length] !in required {
        required := required[key[..length] := false];
      }
    }
    required := required[key := true];
  }

  ghost function AlsoRequired(before: map<Key, bool>, key: Key): map<Key, bool> {
    map k | k in before.Keys + (set j | 0 <= j < |key| :: key[..j]) + {key} :: k == key || (k in before && before[k])
  }

  lemma RequiredKeysGrow(n: Naming, small: set<Path>, path: Path)
    ensures var key := KeyOf(n, path);
            RequiredKeys(n, small + {path}) == RequiredKeys(n, small) + (set j | 0 <= j < |key| :: key[..j]) + {key}
  {
    var key := KeyOf(n, path);
    assert key[..|path|] == key;
    var more := RequiredKeys(n, small) + (set j | 0 <= j < |key| :: key[..j]) + {key};
    forall k | k in RequiredKeys(n, small + {path}) ensures k in more {
      var p, i :| p in small + {path} && 0 <= i <= |p| && k == KeyOf(n, p)[..i];
    }
    forall k | k in more ensures k in RequiredKeys(n, small + {path}) {}
  }

  lemma TargetsGrow(n: Naming, small: set<Path>, path: Path, k: Key)
    ensures IsTarget(n, small + {path}, k) == (k == KeyOf(n, path) || IsTarget(n, small, k))
    ensures IsTarget(n, small, k) ==> k in RequiredKeys(n, small)
  {
    if IsTarget(n, small, k) {
      var p :| p in small && KeyOf(n, p) == k;
      assert p in small + {path} && KeyOf(n, p)[..|p|] == k;
    }
  }

  lemma RequirementsGrow(n: Naming, paths: seq<Path>, path: Path)
    ensures Requirements(n, set p | p in paths + [path])
            == AlsoRequired(Requirements(n, set p | p in paths), KeyOf(n, path))
  {
    var small := set p | p in paths;
    assert (set p | p in paths + [path]) == small + {path};
    RequiredKeysGrow(n, small, path);
    forall k {
      TargetsGrow(n, small, path, k);
    }
  }

  datatype Reply = Granted | Busy | IoError

  /** The kernel: opening a lock file can fail at any time, locking it follows `CanLock`. */
  class Kernel {
    const naming: Naming
    var table: Table
    /** How often opening a lock file has failed. */
    ghost var failures: nat

    constructor (n: Naming)
      ensures naming == n && table == map[] && failures == 0
    {
      naming, table, failures := n, map[], 0;
    }

    method Lock(h: Handle, exclusive: bool) returns (reply: Reply)
      requires h !in table
      modifies this
      ensures reply.Busy? ==> !CanLock(naming, table, h.key, exclusive)
      ensures reply.Granted? ==> CanLock(naming, old(table), h.key, exclusive)
      ensures table == if reply.Granted? then old(table)[h := exclusive] else old(table)
      ensures failures == old(failures) + if reply.IoError? then 1 else 0
    {
      var readable: bool := *;
      if !readable {
        failures := failures + 1;
        return IoError;
      }
      if !CanLock(naming, table, h.key, exclusive) {
        return Busy;
      }
      table := table[h := exclusive];
      return Granted;
    }

    method Close(h: Handle)
      modifies this`table
      ensures table == old(table) - {h}
    {
      table := table - {h};
    }
  }

  datatype Outcome = Added | Closed | OverlapsAncestor | InUse | Unusable

  /** The kernel entries of one owner. */
  ghost function Entries(id: nat, locks: map<Key, bool>): Table {
    map h | h in (set k | k in locks :: Handle(id, k)) :: locks[h.key]
  }

  /** Some required key that is not held yet cannot be locked: another owner's
      lock is in the way, or two required keys share one lock file. */
  ghost predicate Contended(n: Naming, t: Table, held: map<Key, bool>, required: map<Key, bool>) {
    exists k :: k in required && k !in held && Blocked(n, t, required, k)
  }

  ghost predicate Blocked(n: Naming, t: Table, required: map<Key, bool>, k: Key)
    requires k in required
  {
    || !CanLock(n, t, k, required[k])
    || exists j :: j in required && j != k && n.digest(j) == n.digest(k) && (required[j] || required[k])
  }

  /** Some path asked for is held only as the ancestor of another one. */
  ghost predicate Overlaid(held: map<Key, bool>, required: map<Key, bool>) {
    exists k :: k in required && required[k] && k in held && !held[k]
  }

  /** What one call set out from: its owner, that owner's locks, the kernel's table and the requirements. */
  datatype Call = Call(id: nat, held0: map<Key, bool>, table0: Table, required: map<Key, bool>)

  ghost predicate CallOk(c: Call) {
    forall k :: (Handle(c.id, k) in c.table0 <==> k in c.held0)
        && (k in c.held0 ==> c.table0[Handle(c.id, k)] == c.held0[k])
  }

  /** The call has locked exactly the keys in `acquired`, in their required
      modes, and nothing else changed. */
  ghost predicate Took(c: Call, held: map<Key, bool>, table: Table, acquired: seq<Key>) {
    && Distinct(acquired)
    && (forall k | k in acquired :: k in c.required && k !in c.held0)
    && TookLocks(c, held, acquired) && TookEntries(c, table, acquired)
  }

  ghost predicate TookLocks(c: Call, held: map<Key, bool>, acquired: seq<Key>) {
    && (forall k :: k in held <==> k in c.held0 || k in acquired)
    && (forall k | k in held ::
          if k in c.held0 then held[k] == c.held0[k] else k in c.required && held[k] == c.required[k])
  }

  ghost predicate TookEntries(c: Call, table: Table, acquired: seq<Key>) {
    && (forall h :: h in table <==> h in c.table0 || (h.owner == c.id && h.key in acquired))
    && (forall h | h in table ::
          if h in c.table0 then table[h] == c.table0[h] else h.key in c.required && table[h] == c.required[h.key])
  }

  /** Every key locked by this call was free, and no two of them exclude each other. */
  ghost predicate PairsFree(n: Naming, c: Call, acquired: seq<Key>) {
    && (forall k | k in acquired :: k in c.required && CanLock(n, c.table0, k, c.required[k]))
    && (forall j, k | j in acquired && k in acquired && j != k && n.digest(j) == n.digest(k) ::
          j in c.required && k in c.required && !c.required[j] && !c.required[k])
  }

  ghost predicate Visited(c: Call, acquired: seq<Key>, todo: set<Key>) {
    forall k | k in c.required && k !in todo :: k in acquired || (k in c.held0 && (c.required[k] ==> c.held0[k]))
  }

  lemma GrantKeepsTook(c: Call, held: map<Key, bool>, table: Table, acquired: seq<Key>, key: Key)
    requires CallOk(c) && Took(c, held, table, acquired) && key in c.required && key !in held
    ensures Took(c, held[key := c.required[key]], table[Handle(c.id, key) := c.required[key]], acquired + [key])
  {
    assert forall k :: k in acquired + [key] <==> k in acquired || k == key;
    assert Handle(c.id, key) !in c.table0;
  }

  lemma UndoKeepsTook(c: Call, held: map<Key, bool>, table: Table, acquired: seq<Key>)
    requires CallOk(c) && Took(c, held, table, acquired) && acquired != []
    ensures var key := acquired[|acquired| - 1];
            Took(c, held - {key}, table - {Handle(c.id, key)}, acquired[..|acquired| - 1])
  {
    var key, rest := acquired[|acquired| - 1], acquired[..|acquired| - 1];
    LastOfDistinct(acquired);
    assert key !in c.held0;
    hide Distinct;
    UndoKeepsLocks(c, held, acquired, rest, key);
    UndoKeepsEntries(c, table, acquired, rest, key);
  }

  lemma LastOfDistinct(s: seq<Key>)
    requires Distinct(s) && s != []
    ensures var key, rest := s[|s| - 1], s[..|s| - 1];
            Distinct(rest) && key !in rest && forall k :: k in s <==> k in rest || k == key
  {
    assert s == s[..|s| - 1] + [s[|s| - 1]];
  }

  lemma UndoKeepsLocks(c: Call, held: map<Key, bool>, acquired: seq<Key>, rest: seq<Key>, key: Key)
    requires TookLocks(c, held, acquired) && key !in c.held0
    requires key !in rest && forall k :: k in acquired <==> k in rest || k == key
    ensures TookLocks(c, held - {key}, rest)
  {}

  lemma UndoKeepsEntries(c: Call, table: Table, acquired: seq<Key>, rest: seq<Key>, key: Key)
    requires CallOk(c) && TookEntries(c, table, acquired) && key !in c.held0
    requires key !in rest && forall k :: k in acquired <==> k in rest || k == key
    ensures TookEntries(c, table - {Handle(c.id, key)}, rest)
  {}

  lemma GrantKeepsPairs(n: Naming, c: Call, table: Table, acquired: seq<Key>, key: Key)
    requires CallOk(c) && TookEntries(c, table, acquired) && key !in acquired
    requires forall k | k in acquired :: k !in c.held0
    requires PairsFree(n, c, acquired) && key in c.required && CanLock(n, table, key, c.required[key])
    ensures PairsFree(n, c, acquired + [key])
  {
    forall h | h in c.table0 && n.digest(h.key) == n.digest(key) ensures !c.required[key] && !c.table0[h] {
      assert h in table;
    }
    forall k | k in acquired && n.digest(k) == n.digest(key) ensures !c.required[key] && !c.required[k] {
      assert Handle(c.id, k) !in c.table0;
      assert Handle(c.id, k) in table;
    }
    assert forall k :: k in acquired + [key] <==> k in acquired || k == key;
  }

  lemma BusyMeansContended(n: Naming, c: Call, table: Table, acquired: seq<Key>, key: Key)
    requires TookEntries(c, table, acquired) && key in c.required && key !in c.held0 && key !in acquired
    requires !CanLock(n, table, key, c.required[key])
    ensures Contended(n, c.table0, c.held0, c.required)
  {
    var h :| h in table && n.digest(h.key) == n.digest(key) && (c.required[key] || table[h]);
    if h !in c.table0 {
      assert h.key in c.required && h.key != key && (c.required[h.key] || c.required[key]);
    }
    assert Blocked(n, c.table0, c.required, key);
  }

  /** When every key was visited, nothing stood in the way of this call. */
  lemma VisitedMeansFree(n: Naming, c: Call, acquired: seq<Key>)
    requires CallOk(c) && Visited(c, acquired, {}) && PairsFree(n, c, acquired)
    ensures !Contended(n, c.table0, c.held0, c.required)
  {
    forall k | k in c.required && k !in c.held0
      ensures !Blocked(n, c.table0, c.required, k)
    {
      assert k in acquired;
      forall j | j in c.required && j != k && n.digest(j) == n.digest(k)
        ensures !c.required[j] && !c.required[k]
      {
        if j !in acquired {
          assert Handle(c.id, j) in c.table0;
        }
      }
    }
  }

  /** When every key was visited, this call locked exactly the missing required keys. */
  lemma VisitedMeansRequired(c: Call, held: map<Key, bool>, table: Table, acquired: seq<Key>)
    requires CallOk(c) && Took(c, held, table, acquired) && Visited(c, acquired, {})
    ensures held == c.required + c.held0
    ensures table == Entries(c.id, c.required) + c.table0
    ensures forall k | k in c.required && c.required[k] :: held[k]
  {
    hide Distinct;
    VisitedLocks(c, held, acquired);
    VisitedEntries(c, table, acquired);
  }

  lemma VisitedLocks(c: Call, held: map<Key, bool>, acquired: seq<Key>)
    requires forall k | k in acquired :: k in c.required && k !in c.held0
    requires TookLocks(c, held, acquired) && Visited(c, acquired, {})
    ensures held == c.required + c.held0 && forall k | k in c.required && c.required[k] :: held[k]
  {
    assert held.Keys == (c.required + c.held0).Keys;
  }

  lemma VisitedEntries(c: Call, table: Table, acquired: seq<Key>)
    requires (forall k | k in acquired :: k in c.required) && CallOk(c)
    requires TookEntries(c, table, acquired) && Visited(c, acquired, {})
    ensures table == Entries(c.id, c.required) + c.table0
  {
    assert forall h :: h in Entries(c.id, c.required) <==> h == Handle(c.id, h.key) && h.key in c.required;
    forall h ensures h in table <==> h in Entries(c.id, c.required) + c.table0 {
      if h in Entries(c.id, c.required) && h !in c.table0 {
        assert h == Handle(c.id, h.key) && h.key !in c.held0;
      }
    }
  }

  class DestinationLock {
    const kernel: Kernel
    const id: nat
    const parent: DestinationLock?
    ghost const lineage: seq<DestinationLock>
    /** `_handles` with `_exclusive`: the keys locked by this owner. */
    var handles: map<Key, bool>
    var active: int
    var closing: bool
    var cleanups: nat

    /** The chain of parents, outermost first. It never changes. */
    ghost predicate Shape()
      decreases |lineage|
    {
      && lineage != [] && lineage[|lineage| - 1] == this
      && (parent == null <==> |lineage| == 1)
      && (forall i, j | 0 <= i < j < |lineage| :: lineage[i].id != lineage[j].id)
      && (forall x | x in lineage :: x.kernel == kernel)
      && (parent != null ==> parent.lineage == lineage[..|lineage| - 1] && parent.Shape())
    }

    /** Only the outermost owner holds locks, and the kernel agrees with it. */
    ghost predicate Valid()
      reads lineage, kernel
    {
      && Shape()
      && forall x, k | x in lineage ::
           (Handle(x.id, k) in kernel.table <==> k in x.handles)
           && (k in x.handles ==> kernel.table[Handle(x.id, k)] == x.handles[k])
    }

    ghost predicate Open()
      reads lineage
    {
      forall x | x in lineage :: !x.closing
    }

    constructor (kernel: Kernel, id: nat, parent: DestinationLock?)
      requires parent == null ==> forall h | h in kernel.table :: h.owner != id
      requires parent != null ==> parent.Valid() && parent.kernel == kernel
      requires parent != null ==>
                 (forall x | x in parent.lineage :: x.id != id) && forall h | h in kernel.table :: h.owner != id
      ensures Valid() && handles == map[] && active == 0 && !closing && cleanups == 0
      ensures this.kernel == kernel && this.id == id && this.parent == parent
      ensures lineage == (if parent == null then [] else parent.lineage) + [this]
    {
      this.kernel, this.id, this.parent := kernel, id, parent;
      lineage := (if parent == null then [] else parent.lineage) + [this];
      handles, active, closing, cleanups := map[], 0, false, 0;
      new;
      if parent != null {
        assert parent.lineage == lineage[..|lineage| - 1];
      }
    }

    /** `add_paths`: delegated to the outermost owner, which locks the required
        keys one by one and gives back what this call locked if any is refused. */
    method AddPaths(paths: seq<Path>) returns (outcome: Outcome)
      requires Valid()
      modifies lineage[0], kernel
      ensures Valid() && lineage[0].active == old(lineage[0].active) && lineage[0].closing == old(lineage[0].closing)
      ensures lineage[0].cleanups == old(lineage[0].cleanups)
      ensures outcome.Closed? <==> !old(Open())
      ensures var required := Requirements(kernel.naming, set p | p in paths);
              var root := lineage[0];
              // granted exactly when nothing is in the way and every lock file could be opened
              && (outcome.Added? <==>
                    && old(Open()) && kernel.failures == old(kernel.failures)
                    && !Overlaid(old(root.handles), required)
                    && !Contended(kernel.naming, old(kernel.table), old(root.handles), required))
              && (outcome.Added? ==>
                    && root.handles == required + old(root.handles)
                    && kernel.table == Entries(root.id, required) + old(kernel.table)
                    && (forall k | k in required && required[k] :: root.handles[k]))
              && (!outcome.Added? ==> root.handles == old(root.handles) && kernel.table == old(kernel.table))
              && (outcome.OverlapsAncestor? ==> Overlaid(root.handles, required))
              && (outcome.InUse? ==> Contended(kernel.naming, kernel.table, root.handles, required))
              && (outcome.Unusable? <==> kernel.failures != old(kernel.failures))
      decreases |lineage|
    {
      if closing {
        return Closed;
      }
      if parent != null {
        LineageParts();
        outcome := parent.AddPaths(paths);
        return;
      }
      outcome := AcquireAll(paths);
    }

    /** The body of `add_paths` for an owner without a parent. */
    method AcquireAll(paths: seq<Path>) returns (outcome: Outcome)
      requires Valid() && parent == null
      modifies this`handles, kernel
      ensures Valid() && !outcome.Closed?
      ensures var required := Requirements(kernel.naming, set p | p in paths);
              && (outcome.Added? ==>
                    && handles == required + old(handles)
                    && kernel.table == Entries(id, required) + old(kernel.table)
                    && (forall k | k in required && required[k] :: handles[k])
                    && !Overlaid(old(handles), required)
                    && !Contended(kernel.naming, old(kernel.table), old(handles), required))
              && (!outcome.Added? ==> handles == old(handles) && kernel.table == old(kernel.table))
              && (outcome.OverlapsAncestor? ==> Overlaid(handles, required))
              && (outcome.InUse? ==> Contended(kernel.naming, kernel.table, handles, required))
              && (outcome.Unusable? <==> kernel.failures != old(kernel.failures))
    {
      assert lineage == [this];
      var required := ComputeRequirements(kernel.naming, paths);
      ghost var c := Call(id, handles, kernel.table, required);
      var acquired: seq<Key>;
      outcome, acquired := LockInTurn(required, c);
      if outcome.Added? {
        VisitedMeansFree(kernel.naming, c, acquired);
        VisitedMeansRequired(c, handles, kernel.table, acquired);
      } else {
        RollBack(c, acquired);
      }
    }

    /** The loop over the required keys. */
    method LockInTurn(required: map<Key, bool>, ghost c: Call) returns (outcome: Outcome, acquired: seq<Key>)
      requires c == Call(id, handles, kernel.table, required) && CallOk(c)
      modifies this`handles, kernel
      ensures Took(c, handles, kernel.table, acquired)
      ensures !outcome.Closed?
      ensures outcome.Added? ==> Visited(c, acquired, {}) && PairsFree(kernel.naming, c, acquired)
      ensures outcome.OverlapsAncestor? ==> Overlaid(c.held0, required)
      ensures outcome.InUse? ==> Contended(kernel.naming, c.table0, c.held0, required)
      ensures outcome.Unusable? <==> kernel.failures != old(kernel.failures)
    {
      acquired := [];
      outcome := Added;
      var todo := required.Keys;
      while todo != {} && outcome.Added?
        invariant todo <= required.Keys && !outcome.Closed?
        invariant Took(c, handles, kernel.table, acquired)
        invariant outcome.Added? ==> Visited(c, acquired, todo) && PairsFree(kernel.naming, c, acquired)
        invariant outcome.OverlapsAncestor? ==> Overlaid(c.held0, required)
        invariant outcome.Unusable? <==> kernel.failures != old(kernel.failures)
        invariant outcome.InUse? ==> Contended(kernel.naming, c.table0, c.held0, required)
        decreases todo
      {
        var key :| key in todo;
        todo := todo - {key};
        ghost var held, table := handles, kernel.table;
        var locked: bool;
        outcome, locked := VisitKey(key, required[key]);
        if locked {
          GrantKeepsTook(c, held, table, acquired, key);
          GrantKeepsPairs(kernel.naming, c, table, acquired, key);
          acquired := acquired + [key];
        } else if outcome.InUse? {
          BusyMeansContended(kernel.naming, c, table, acquired, key);
        }
      }
    }

    /** One required key: already held, held too weakly, refused, or locked now. */
    method VisitKey(key: Key, exclusive: bool) returns (outcome: Outcome, locked: bool)
      requires Handle(id, key) in kernel.table <==> key in handles
      modifies this`handles, kernel
      ensures locked ==>
                outcome.Added? && key !in old(handles) && CanLock(kernel.naming, old(kernel.table), key, exclusive)
      ensures handles == if locked then old(handles)[key := exclusive] else old(handles)
      ensures kernel.table == if locked then old(kernel.table)[Handle(id, key) := exclusive] else old(kernel.table)
      ensures outcome.Added? && !locked ==> key in handles && (exclusive ==> handles[key])
      ensures outcome.OverlapsAncestor? ==> key in handles && exclusive && !handles[key]
      ensures outcome.InUse? ==> key !in handles && !CanLock(kernel.naming, kernel.table, key, exclusive)
      ensures !outcome.Closed?
      ensures kernel.failures == old(kernel.failures) + if outcome.Unusable? then 1 else 0
    {
      if key in handles {
        return if exclusive && !handles[key] then OverlapsAncestor else Added, false;
      }
      var reply := kernel.Lock(Handle(id, key), exclusive);
      match reply
      case IoError => return Unusable, false;
      case Busy => return InUse, false;
      case Granted =>
        handles := handles[key := exclusive];
        return Added, true;
    }

    /** Closes what this call locked, the last key first. */
    method RollBack(ghost c: Call, acquired: seq<Key>)
      requires c.id == id && CallOk(c) && Took(c, handles, kernel.table, acquired)
      modifies this`handles, kernel`table
      ensures handles == c.held0 && kernel.table == c.table0
    {
      var rest := acquired;
      while rest != []
        invariant Took(c, handles, kernel.table, rest)
        decreases |rest|
      {
        UndoKeepsTook(c, handles, kernel.table, rest);
        var key := rest[|rest| - 1];
        kernel.Close(Handle(id, key));
        handles := handles - {key};
        rest := rest[..|rest| - 1];
      }
    }

    /** Entering `operation`: the parents first, then this owner, unless it is
        closing; a refusal gives the parents' leases back. */
    method Enter() returns (entered: bool)
      requires Valid()
      modifies lineage, kernel
      ensures Valid() && kernel.table == old(kernel.table)
      ensures entered <==> old(Open())
      ensures forall x | x in lineage ::
                && x.active == old(x.active) + (if entered then 1 else 0)
                && x.closing == old(x.closing) && x.handles == old(x.handles) && x.cleanups == old(x.cleanups)
      decreases |lineage|, 1
    {
      if parent != null {
        LineageParts();
        entered := parent.Enter();
        if !entered {
          return;
        }
      }
      if closing {
        if parent != null {
          LineageParts();
          parent.Exit();
        }
        return false;
      }
      active := active + 1;
      return true;
    }

    /** Leaving `operation`: this owner first, then its parents. */
    method Exit()
      requires Valid()
      modifies lineage, kernel
      ensures Valid()
      ensures kernel.table == WithoutOwners(old(kernel.table), old(Ending(lineage)))
      ensures forall x | x in lineage ::
                && x.active == old(x.active) - 1 && x.closing == old(x.closing) && x.cleanups == old(x.cleanups)
                && x.handles == if old(x.closing && x.active == 1) then map[] else old(x.handles)
      decreases |lineage|, 0
    {
      Leave();
      if parent != null {
        LineageParts();
        parent.Exit();
      }
    }

    /** `_leave`: the last lease of a closing owner closes its handles. */
    method Leave()
      requires Valid()
      modifies this`active, this`handles, kernel
      ensures Valid()
      ensures active == old(active) - 1
      ensures kernel.table == WithoutOwners(old(kernel.table), if old(closing && active == 1) then {id} else {})
      ensures handles == if old(closing && active == 1) then map[] else old(handles)
    {
      active := active - 1;
      if closing && active == 0 {
        CloseHandles();
      }
    }

    method CloseHandles()
      requires forall k :: Handle(id, k) in kernel.table <==> k in handles
      modifies this`handles, kernel
      ensures handles == map[] && kernel.table == WithoutOwners(old(kernel.table), {id})
    {
      var rest := handles.Keys;
      while rest != {}
        invariant rest <= handles.Keys
        invariant kernel.table == map h | h in old(kernel.table)
                    && (h.owner != id || h.key in rest) :: old(kernel.table)[h]
        decreases rest
      {
        var key :| key in rest;
        kernel.Close(Handle(id, key));
        rest := rest - {key};
      }
      handles := map[];
    }

    /** Every parent accepts another lease. */
    ghost predicate ParentsOpen()
      reads lineage
    {
      forall x | x in lineage && x != this :: !x.closing
    }

    /** `close`: only the first call does anything. It keeps a lease of its own
        while the cleanup runs, and gives up the locks if no other lease is left. */
    method Close(cleanup: bool)
      requires Valid() && active >= 0
      modifies lineage, kernel
      ensures Valid() && closing
      ensures forall x | x in lineage :: x.active == old(x.active)
      ensures forall x | x in lineage && x != this ::
                x.closing == old(x.closing) && x.cleanups == old(x.cleanups) && x.handles == old(x.handles)
      ensures cleanups == old(cleanups) + if !old(closing) && cleanup && old(ParentsOpen()) then 1 else 0
      ensures var last := !old(closing) && old(active) == 0;
              && kernel.table == WithoutOwners(old(kernel.table), if last then {id} else {})
              && handles == if last then map[] else old(handles)
    {
      if closing {
        return;
      }
      closing := true;
      active := active + 1;
      RunCleanup(cleanup);
      Leave();
    }

    /** The cleanup runs while every parent holds a lease for it, or not at all. */
    method RunCleanup(cleanup: bool)
      requires Valid()
      modifies lineage, kernel
      ensures Valid() && kernel.table == old(kernel.table)
      ensures forall x | x in lineage ::
                x.active == old(x.active) && x.closing == old(x.closing) && x.handles == old(x.handles)
      ensures forall x | x in lineage && x != this :: x.cleanups == old(x.cleanups)
      ensures cleanups == old(cleanups) + if cleanup && old(ParentsOpen()) then 1 else 0
    {
      if parent == null {
        assert lineage == [this];
        cleanups := cleanups + if cleanup then 1 else 0;
        return;
      }
      LineageParts();
      var entered := parent.Enter();
      if entered {
        cleanups := cleanups + if cleanup then 1 else 0;
        assert Ending(parent.lineage) == {};
        parent.Exit();
      }
    }

    lemma LineageParts()
      requires Shape() && parent != null
      ensures forall x :: x in lineage <==> x in parent.lineage || x == this
      ensures this !in parent.lineage && lineage[0] == parent.lineage[0] && lineage[0] in lineage
      ensures parent.kernel == kernel && forall x | x in parent.lineage :: x.id != id
    {
      assert lineage == parent.lineage + [this];
      assert parent in parent.lineage;
    }
  }

  /** The owners whose next lease to leave is their last while they are closing. */
  ghost function Ending(line: seq<DestinationLock>): set<nat>
    reads line
  {
    set x | x in line && x.closing && x.active == 1 :: x.id
  }
}
