/** `OwnedScratch` (scratch.py): creating, releasing and recovering workspaces by
    single file-system calls, each of which may fail. */
module OwnedScratches {
  import opened Collections
  import opened ScratchStore

  type Lease = (Kind, Name)

  /** The two scratch roots. */
  datatype Roots = Roots(staging: Dir, chunks: Dir) {
    function At(kind: Kind): Dir {
      if kind.Staging? then staging else chunks
    }

    function With(kind: Kind, dir: Dir): Roots {
      if kind.Staging? then this.(staging := dir) else this.(chunks := dir)
    }
  }

  /** Both scratch roots and the leases held by live processes. A reliable disk
      never refuses a call that is possible. */
  class Disk {
    const reliable: bool
    var roots: Roots
    var leases: set<Lease>

    constructor (reliable: bool, roots: Roots)
      ensures this.reliable == reliable && this.roots == roots && leases == {}
    {
      this.reliable, this.roots, leases := reliable, roots, {};
    }

    method Unlink(kind: Kind, work: Name, name: Name) returns (ok: bool)
      requires work in roots.At(kind) && roots.At(kind)[work].Work? && name in roots.At(kind)[work].files
      modifies this`roots
      ensures (reliable ==> ok)
      ensures roots == if ok
                then old(roots).With(kind, old(roots).At(kind)[work := Work(old(roots).At(kind)[work].files - {name})])
                       else old(roots)
    {
      ok := *;
      ok := ok || reliable;
      if ok {
        roots := roots.With(kind, roots.At(kind)[work := Work(roots.At(kind)[work].files - {name})]);
      }
    }

    /** `rmdir`: refused for a directory that is not empty. */
    method RemoveDir(kind: Kind, work: Name) returns (ok: bool)
      requires work in roots.At(kind) && roots.At(kind)[work].Work?
      modifies this`roots
      ensures (reliable && old(roots).At(kind)[work].files == map[] ==> ok)
      ensures ok ==> old(roots).At(kind)[work].files == map[]
      ensures roots == if ok then old(roots).With(kind, old(roots).At(kind) - {work}) else old(roots)
    {
      ok := *;
      ok := (ok || reliable) && roots.At(kind)[work].files == map[];
      if ok {
        roots := roots.With(kind, roots.At(kind) - {work});
      }
    }

    method Put(kind: Kind, work: Name, entry: Entry) returns (ok: bool)
      modifies this`roots
      ensures roots == if ok then old(roots).With(kind, old(roots).At(kind)[work := entry]) else old(roots)
      ensures reliable ==> ok
    {
      ok := *;
      ok := ok || reliable;
      if ok {
        roots := roots.With(kind, roots.At(kind)[work := entry]);
      }
    }

    method Lock(lease: Lease) returns (ok: bool)
      modifies this`leases
      ensures (ok ==> lease !in old(leases)) && (reliable && lease !in old(leases) ==> ok)
      ensures leases == if ok then old(leases) + {lease} else old(leases)
    {
      ok := *;
      ok := (ok || reliable) && lease !in leases;
      if ok {
        leases := leases + {lease};
      }
    }
  }

  /** What `_remove` may delete: an unleased workspace with nothing in it but this
      owner's marker and the transfer files that the marker records. */
  ghost predicate Removable(roots: Roots, leases: set<Lease>, target: string, kind: Kind, work: Name) {
    work in roots.At(kind) && (kind, work) !in leases && Ours(roots.At(kind)[work], target, kind, work)
  }

  /** What `recover` is after in one root. */
  ghost function Reclaimable(roots: Roots, leases: set<Lease>, target: string, kind: Kind): set<Name> {
    set n | n in roots.At(kind) && n != MARKER && Removable(roots, leases, target, kind, n)
  }

  class OwnedScratch {
    const disk: Disk
    const target: string
    /** The workspaces this owner has in use; it holds their leases. */
    var active: set<Lease>

    ghost predicate Valid()
      reads this, disk
    {
      active <= disk.leases
    }

    constructor (disk: Disk, target: string)
      ensures Valid() && this.disk == disk && this.target == target && active == {}
    {
      this.disk, this.target, active := disk, target, {};
    }

    /** All entries of both roots other than this one are as they were. */
    ghost predicate OthersSame(before: Roots, after: Roots, kind: Kind, work: Name)
    {
      && (forall k | k != kind :: after.At(k) == before.At(k))
      && (forall n | n != work :: (n in after.At(kind) <==> n in before.At(kind))
           && (n in after.At(kind) ==> after.At(kind)[n] == before.At(kind)[n]))
    }

    /** `create`: the marker is on disk, complete and leased, before the caller can
        write any transfer byte; a failure leaves a workspace without any. */
    method Create(kind: Kind, names: seq<Name>, token: string) returns (work: Option<Name>)
      requires Valid() && |token| == 32 && AllHex(token)
      modifies this, disk
      ensures Valid() && OthersSame(old(disk.roots), disk.roots, kind, "work_" + token)
      ensures !Fits(kind, names) || ("work_" + token) in old(disk.roots).At(kind) ==>
                work.None? && disk.roots == old(disk.roots) && disk.leases == old(disk.leases) && active == old(active)
      ensures disk.reliable && Fits(kind, names) && ("work_" + token) !in old(disk.roots).At(kind) ==>
                work.Some? || (kind, "work_" + token) in old(disk.leases)
      ensures work.Some? ==>
                && work.value == "work_" + token && (kind, work.value) in active
                && active == old(active) + {(kind, work.value)}
                     && disk.leases == old(disk.leases) + {(kind, work.value)}
                && work.value in disk.roots.At(kind) && disk.roots.At(kind)[work.value].Work?
                && Describes(disk.roots.At(kind)[work.value].files, target, kind, work.value, token, names)
                && !HasTransferBytes(disk.roots.At(kind)[work.value])
      ensures work.None? ==>
                && active == old(active) && disk.leases == old(disk.leases)
                && (("work_" + token) in disk.roots.At(kind) && ("work_" + token) !in old(disk.roots).At(kind) ==>
                      !HasTransferBytes(disk.roots.At(kind)["work_" + token]))
    {
      hide ValidNames, Fits, HexWord, AllHex, OthersSame, Describes;
      NamesAreSpelled(kind, names);
      ghost var before := disk.roots;
      NothingElsewhere(before, kind, "work_" + token);
      if !ValidNames(kind, names) {
        return None;
      }
      var name := "work_" + token;
      assert name[..5] == "work_" && name[5..] == token;
      if name in disk.roots.At(kind) {
        return None;
      }
      var ok := disk.Put(kind, name, Work(map[]));
      if !ok {
        return None;
      }
      EntryPut(before, before, disk.roots, kind, name, Work(map[]));
      ghost var now := disk.roots;
      ok := disk.Put(kind, name, Work(map[MARKER := Regular(Bytes([]))]));
      if !ok {
        return None;
      }
      EntryPut(before, now, disk.roots, kind, name, Work(map[MARKER := Regular(Bytes([]))]));
      var locked := disk.Lock((kind, name));
      if !locked {
        return None;
      }
      now := disk.roots;
      var marker := Regular(Complete(Manifest(target, kind, token, names)));
      ok := disk.Put(kind, name, Work(map[MARKER := marker]));
      if !ok {
        disk.leases := disk.leases - {(kind, name)};
        return None;
      }
      EntryPut(before, now, disk.roots, kind, name, Work(map[MARKER := marker]));
      MarkerDescribes(target, kind, token, names);
      active := active + {(kind, name)};
      return Some(name);
    }

    lemma NothingElsewhere(roots: Roots, kind: Kind, work: Name)
      ensures OthersSame(roots, roots, kind, work)
    {}

    lemma EntryPut(before: Roots, now: Roots, after: Roots, kind: Kind, work: Name, entry: Entry)
      requires OthersSame(before, now, kind, work) && after == now.With(kind, now.At(kind)[work := entry])
      ensures OthersSame(before, after, kind, work) && work in after.At(kind) && after.At(kind)[work] == entry
    {}

    /** A new workspace with its marker is this owner's. */
    lemma MarkerDescribes(target: string, kind: Kind, token: string, names: seq<Name>)
      requires |token| == 32 && AllHex(token) && Fits(kind, names)
      ensures var files := map[MARKER := Regular(Complete(Manifest(target, kind, token, names)))];
              && Describes(files, target, kind, "work_" + token, token, names) && !HasTransferBytes(Work(files))
    {
      hide Fits;
      HexWords(token);
    }

    /** `_remove`: nothing is deleted unless the whole workspace is this owner's, down to
        every entry, and its lease is free; the marker goes last. */
    method Remove(kind: Kind, work: Name) returns (removed: bool)
      requires Valid()
      modifies disk`roots
      ensures Valid() && OthersSame(old(disk.roots), disk.roots, kind, work)
      ensures !old(Removable(disk.roots, disk.leases, target, kind, work)) ==> !removed && disk.roots == old(disk.roots)
      ensures old(Removable(disk.roots, disk.leases, target, kind, work)) ==>
                if removed then work !in disk.roots.At(kind)
                else !disk.reliable && work in disk.roots.At(kind) && disk.roots.At(kind)[work].Work?
                     && Shrunk(old(disk.roots.At(kind)[work].files), disk.roots.At(kind)[work].files)
    {
      hide ValidNames, ChunkName, OnlyRecorded, Ours;
      ghost var before := disk.roots;
      if work !in disk.roots.At(kind) {
        return false;
      }
      var entry := disk.roots.At(kind)[work];
      RecognisedExactlyWhenOurs(entry, target, kind, work);
      if !ValidWorkName(work) || !entry.Work? || MARKER !in entry.files || !entry.files[MARKER].Regular? {
        return false;
      }
      if (kind, work) in disk.leases {
        return false;
      }
      if !Recognised(entry, target, kind, work) {
        return false;
      }
      var rest := entry.files.Keys - {MARKER};
      hide OthersSame, Recognised, Ours, Shrunk, Roots.With;
      NothingUnlinked(before, kind, work);
      while rest != {}
        invariant Valid() && OthersSame(before, disk.roots, kind, work)
        invariant work in disk.roots.At(kind) && disk.roots.At(kind)[work].Work?
        invariant disk.roots.At(kind)[work].files.Keys == rest + {MARKER} && rest <= entry.files.Keys - {MARKER}
        invariant Shrunk(entry.files, disk.roots.At(kind)[work].files)
        decreases rest
      {
        var name :| name in rest;
        ghost var now := disk.roots;
        var ok := disk.Unlink(kind, work, name);
        if !ok {
          return false;
        }
        OneUnlinked(before, now, disk.roots, kind, work, name);
        rest := rest - {name};
      }
      ghost var marked := disk.roots;
      var ok := disk.Unlink(kind, work, MARKER);
      if !ok {
        return false;
      }
      OneUnlinked(before, marked, disk.roots, kind, work, MARKER);
      assert disk.roots.At(kind)[work].files == map[];
      ghost var empty := disk.roots;
      removed := disk.RemoveDir(kind, work);
      if removed {
        DirRemoved(before, empty, disk.roots, kind, work);
      }
    }

    lemma NothingUnlinked(roots: Roots, kind: Kind, work: Name)
      requires work in roots.At(kind) && roots.At(kind)[work].Work?
      ensures OthersSame(roots, roots, kind, work) && Shrunk(roots.At(kind)[work].files, roots.At(kind)[work].files)
    {}

    lemma OneUnlinked(before: Roots, now: Roots, after: Roots, kind: Kind, work: Name, name: Name)
      requires OthersSame(before, now, kind, work) && work in before.At(kind) && before.At(kind)[work].Work?
      requires work in now.At(kind) && now.At(kind)[work].Work? && name in now.At(kind)[work].files
      requires name == MARKER ==> now.At(kind)[work].files.Keys == {MARKER}
      requires Shrunk(before.At(kind)[work].files, now.At(kind)[work].files)
      requires after == now.With(kind, now.At(kind)[work := Work(now.At(kind)[work].files - {name})])
      ensures OthersSame(before, after, kind, work) && work in after.At(kind)
      ensures after.At(kind)[work] == Work(now.At(kind)[work].files - {name})
      ensures Shrunk(before.At(kind)[work].files, after.At(kind)[work].files)
    {}

    lemma DirRemoved(before: Roots, now: Roots, after: Roots, kind: Kind, work: Name)
      requires OthersSame(before, now, kind, work) && after == now.With(kind, now.At(kind) - {work})
      ensures OthersSame(before, after, kind, work) && work !in after.At(kind)
    {}

    /** `release`: the lease is given up first, then the workspace is removed. */
    method Release(kind: Kind, work: Name) returns (removed: bool)
      requires Valid()
      modifies this, disk
      ensures Valid() && OthersSame(old(disk.roots), disk.roots, kind, work)
      ensures active == old(active) - {(kind, work)}
      ensures (kind, work) !in old(active) ==>
                !removed && disk.roots == old(disk.roots) && disk.leases == old(disk.leases)
      ensures (kind, work) in old(active) ==> disk.leases == old(disk.leases) - {(kind, work)}
      ensures (kind, work) in old(active) ==>
                var mine := work in old(disk.roots).At(kind)
                    && Ours(old(disk.roots).At(kind)[work], target, kind, work);
                && (mine && disk.reliable ==> removed) && (removed ==> mine && work !in disk.roots.At(kind))
                && (!mine ==> disk.roots == old(disk.roots))
    {
      if (kind, work) !in active {
        return false;
      }
      active := active - {(kind, work)};
      disk.leases := disk.leases - {(kind, work)};
      removed := Remove(kind, work);
    }

    /** Every entry `recover` is not after keeps every byte; the others are gone or,
        when a deletion was refused, cut down without losing their marker first. */
    ghost predicate Recovered(before: Roots, after: Roots, leases: set<Lease>, kind: Kind)
    {
      && after.At(kind).Keys <= before.At(kind).Keys
      && (forall n | n in before.At(kind) && n !in Reclaimable(before, leases, target, kind) ::
            n in after.At(kind) && after.At(kind)[n] == before.At(kind)[n])
      && (forall n | n in after.At(kind) && n in Reclaimable(before, leases, target, kind) ::
            after.At(kind)[n].Work? && Shrunk(before.At(kind)[n].files, after.At(kind)[n].files))
    }

    /** `recover`: both roots, one after the other. */
    method Recover() returns (removed: nat)
      requires Valid()
      modifies disk`roots
      ensures Valid() && forall k: Kind :: Recovered(old(disk.roots), disk.roots, disk.leases, k)
      ensures disk.reliable ==>
                && (forall k: Kind ::
                     disk.roots.At(k) == old(disk.roots).At(k) - Reclaimable(old(disk.roots), disk.leases, target, k))
                && removed == |Reclaimable(old(disk.roots), disk.leases, target, Staging)|
                              + |Reclaimable(old(disk.roots), disk.leases, target, Chunks)|
    {
      removed := RecoverRoot(Staging);
      assert Reclaimable(disk.roots, disk.leases, target, Chunks)
             == Reclaimable(old(disk.roots), disk.leases, target, Chunks);
      var more := RecoverRoot(Chunks);
      removed := removed + more;
      forall k: Kind ensures Recovered(old(disk.roots), disk.roots, disk.leases, k) {
        match k case Staging => case Chunks =>
      }
    }

    lemma NothingRecoveredYet(roots: Roots, kind: Kind)
      ensures Recovered(roots, roots, disk.leases, kind)
    {}

    lemma RecoverOneMore(before: Roots, now: Roots, after: Roots, leases: set<Lease>, kind: Kind, work: Name)
      requires Recovered(before, now, leases, kind) && OthersSame(now, after, kind, work)
      requires work in before.At(kind)
      requires work in Reclaimable(before, leases, target, kind) && work in after.At(kind) ==>
                 after.At(kind)[work].Work? && Shrunk(before.At(kind)[work].files, after.At(kind)[work].files)
      requires work !in Reclaimable(before, leases, target, kind) ==>
                 work in after.At(kind) && after.At(kind)[work] == before.At(kind)[work]
      ensures Recovered(before, after, leases, kind)
    {
      hide Ours, Shrunk;
    }

    /** One entry's turn in `recover`. */
    method RecoverEntry(kind: Kind, work: Name, ghost before: Roots) returns (gone: bool)
      requires Valid() && Recovered(before, disk.roots, disk.leases, kind)
      requires work in before.At(kind) && work in disk.roots.At(kind)
                 && disk.roots.At(kind)[work] == before.At(kind)[work]
      modifies disk`roots
      ensures Valid() && OthersSame(old(disk.roots), disk.roots, kind, work)
      ensures Recovered(before, disk.roots, disk.leases, kind)
      ensures disk.reliable ==>
                && gone == (work in Reclaimable(before, disk.leases, target, kind))
                && (gone ==> work !in disk.roots.At(kind))
    {
      hide Ours, Shrunk, Recovered;
      gone := false;
      ghost var now := disk.roots;
      if work != MARKER && (kind, work) !in active {
        gone := Remove(kind, work);
      }
      RecoverOneMore(before, now, disk.roots, disk.leases, kind, work);
    }

    /** The loop over one root's entries. */
    method RecoverRoot(kind: Kind) returns (removed: nat)
      requires Valid()
      modifies disk`roots
      ensures Valid() && (forall k | k != kind :: disk.roots.At(k) == old(disk.roots).At(k))
      ensures Recovered(old(disk.roots), disk.roots, disk.leases, kind)
      ensures disk.reliable ==>
                && disk.roots.At(kind) == old(disk.roots).At(kind) - Reclaimable(old(disk.roots), disk.leases, target,
                     kind)
                && removed == |Reclaimable(old(disk.roots), disk.leases, target, kind)|
    {
      ReclaimableAreEntries(kind);
      hide Ours, Shrunk, Recovered, Reclaimable, Removable;
      ghost var before, goal := disk.roots, Reclaimable(disk.roots, disk.leases, target, kind);
      ghost var done: set<Name> := {};
      removed := 0;
      NothingRecoveredYet(before, kind);
      var todo := disk.roots.At(kind).Keys;
      while todo != {}
        invariant Valid() && todo <= before.At(kind).Keys
        invariant forall k | k != kind :: disk.roots.At(k) == before.At(k)
        invariant Recovered(before, disk.roots, disk.leases, kind)
        invariant forall n | n in todo :: n in disk.roots.At(kind) && disk.roots.At(kind)[n] == before.At(kind)[n]
        invariant done <= goal <= done + todo && done !! todo
        invariant disk.reliable ==> removed == |done| && forall n | n in done :: n !in disk.roots.At(kind)
        decreases todo
      {
        var work :| work in todo;
        todo := todo - {work};
        var gone := RecoverEntry(kind, work, before);
        removed := removed + if gone then 1 else 0;
        done := done + if work in goal then {work} else {};
      }
      assert done == goal;
      ExactlyTheRest(before, disk.roots, kind);
    }

    lemma ReclaimableAreEntries(kind: Kind)
      ensures Reclaimable(disk.roots, disk.leases, target, kind) <= disk.roots.At(kind).Keys
    {}

    lemma ExactlyTheRest(before: Roots, after: Roots, kind: Kind)
      requires Recovered(before, after, disk.leases, kind)
      ensures (forall n | n in Reclaimable(before, disk.leases, target, kind) :: n !in after.At(kind)) ==>
                after.At(kind) == before.At(kind) - Reclaimable(before, disk.leases, target, kind)
    {
      hide Ours, Shrunk;
    }
  }

  /** What `recover` leaves on a reliable disk after a crash anywhere - the
      directory its contract names - has no transfer file of the protocol left in
      any workspace that nobody else put something into. */
  lemma RecoveryReclaimsEverything(dir: Dir, target: string, kind: Kind, es: seq<Event>, before: Roots, after: Roots,
      work: Name)
    requires Runs(Initial(dir), target, kind, es)
    requires var w := Apply(After(Initial(dir), target, kind, es), target, kind, Crash);
             before.At(kind) == w.dir && work in w.plan && work !in w.touched && work != MARKER
    requires after.At(kind) == before.At(kind) - Reclaimable(before, {}, target, kind)
    ensures work in after.At(kind) ==> !HasTransferBytes(after.At(kind)[work])
  {
    hide Recognised, HasTransferBytes, Ours;
    var w := Apply(After(Initial(dir), target, kind, es), target, kind, Crash);
    if IsWork(w, work) {
      AbandonedBytesAreRecognised(dir, target, kind, es, work);
      RecognisedExactlyWhenOurs(w.dir[work], target, kind, work);
    } else if work in before.At(kind) {
      StrayHasNone(before.At(kind)[work]);
    }
  }

  lemma StrayHasNone(entry: Entry)
    requires !entry.Work?
    ensures !HasTransferBytes(entry)
  {}
}
