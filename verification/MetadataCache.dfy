/** The two-level file-metadata cache (cache.py, `CacheManager`): a table that is
    saved with the run, in front of it a least-recently-used cache. */
module MetadataCaches {
  import opened Collections
  import opened LruCaches
  import opened MetadataLevels

  const MAX_ENTRIES: nat := 100000

  /** The table in insertion order; storing an existing key keeps its place. */
  datatype Table = Table(order: seq<Key>, entries: map<Key, Record>)

  ghost predicate TableSound(t: Table) {
    Distinct(t.order) && forall k :: k in t.order <==> k in t.entries
  }

  function Store(t: Table, k: Key, r: Record): Table {
    Table(if k in t.entries then t.order else t.order + [k], t.entries[k := r])
  }

  /** Only the newest entries are kept. */
  function Trimmed(t: Table): Table {
    if |t.order| > MAX_ENTRIES then
      var kept := t.order[|t.order| - MAX_ENTRIES..];
      Table(kept, map k | k in t.entries && k in kept :: t.entries[k])
    else t
  }

  function WithoutKey(t: Table, k: Key): Table {
    Table(Remove(t.order, k), t.entries - {k})
  }

  lemma TrimKeepsTable(t: Table)
    requires TableSound(t)
    ensures TableSound(Trimmed(t)) && |Trimmed(t).order| <= MAX_ENTRIES
    ensures forall k | k in Trimmed(t).entries :: k in t.entries && Trimmed(t).entries[k] == t.entries[k]
  {
    if |t.order| > MAX_ENTRIES {
      PartsDistinct(t.order, |t.order| - MAX_ENTRIES);
    }
  }

  /** The paths in the table after one was stored: a new one replaces the oldest when
      the table is full, and otherwise none is forgotten. */
  ghost function AfterStore(t: Table, k: Key): set<Key>
    requires |t.order| <= MAX_ENTRIES
  {
    if k !in t.entries && |t.order| == MAX_ENTRIES then t.entries.Keys - {t.order[0]} + {k} else t.entries.Keys + {k}
  }

  lemma StoreForgetsOldest(t: Table, k: Key, r: Record)
    requires TableSound(t) && |t.order| <= MAX_ENTRIES
    ensures Trimmed(Store(t, k, r)).entries.Keys == AfterStore(t, k)
  {
    if k !in t.entries && |t.order| == MAX_ENTRIES {
      var kept := (t.order + [k])[1..];
      assert kept == t.order[1..] + [k];
      forall x ensures x in kept <==> x in AfterStore(t, k) {
        assert t.order == [t.order[0]] + t.order[1..];
      }
    }
  }

  /** Storing trims at most one entry, and not the one that was stored. */
  lemma StoreKeepsTable(t: Table, k: Key, r: Record)
    requires TableSound(t) && |t.order| <= MAX_ENTRIES
    ensures var t' := Trimmed(Store(t, k, r));
            && TableSound(t') && |t'.order| <= MAX_ENTRIES && k in t'.entries && t'.entries[k] == r
            && forall x | x in t'.entries && x != k :: x in t.entries && t'.entries[x] == t.entries[x]
    ensures Trimmed(Store(t, k, r)).entries.Keys == AfterStore(t, k)
  {
    var stored := Store(t, k, r);
    TrimKeepsTable(stored);
    StoreForgetsOldest(t, k, r);
    assert stored.order[|stored.order| - 1] == k || |stored.order| <= MAX_ENTRIES;
    if |stored.order| > MAX_ENTRIES {
      assert Trimmed(stored).order[MAX_ENTRIES - 1] == k;
    }
  }

  lemma DropKeepsTable(t: Table, k: Key)
    requires TableSound(t)
    ensures TableSound(WithoutKey(t, k))
  {
    RemoveLength(t.order, k);
  }

  class CacheManager {
    const maxAge: real
    const lru: LRUCache<Record>
    var files: Table
    /** The record of the latest save of each path since its last cleanup. */
    ghost var latest: map<Key, Record>

    ghost predicate Shape()
      reads this, lru
    {
      lru.Sound() && TableSound(files) && |files.order| <= MAX_ENTRIES
    }

    /** What the two levels hold for one path. */
    ghost function Level(k: Key): Levels
      reads this, lru
    {
      Levels(if k in lru.entries then Some(lru.entries[k].0) else None,
             if k in files.entries then Some(files.entries[k]) else None)
    }

    /** Between calls that do not overlap, each level only holds latest records. */
    ghost predicate Valid()
      reads this, lru
    {
      Shape() && forall k :: InOrder(k)
    }

    /** Both levels hold the path's latest record or nothing. */
    ghost predicate InOrder(k: Key)
      reads this, lru
    {
      var newest := if k in latest then Some(latest[k]) else None;
      NoneOr(Level(k).lru, newest) && NoneOr(Level(k).table, newest)
    }

    /** The path is stored in some level and its record is young enough. */
    ghost predicate Available(k: Key, now: real)
      reads this, lru
    {
      && ((k in lru.entries && now - lru.entries[k].1 <= lru.ttl) || k in files.entries)
      && k in latest && latest[k].updated.Some? && now - latest[k].updated.value <= maxAge
    }

    constructor (maxsize: nat, ttl: real, maxAge: real)
      ensures Valid() && latest == map[] && files == Table([], map[]) && fresh(lru) && lru.View() == Empty()
      ensures lru.maxsize == maxsize && lru.ttl == ttl && this.maxAge == maxAge
    {
      this.maxAge := maxAge;
      lru := new LRUCache(maxsize, ttl);
      files, latest := Table([], map[]), map[];
    }

    // The critical sections. Each says what it does to the levels of its path; other
    // paths can only lose entries by it.

    /** The first section of a lookup. */
    method Peek(key: Key, now: real) returns (seen: Option<Record>)
      requires Shape()
      modifies lru
      ensures Shape()
      ensures var live := Live(old(lru.View()), key, now, lru.ttl);
              && Level(key) == (if live then old(Level(key)) else old(Level(key)).(lru := None))
              && seen == (if live then old(Level(key)).lru else None)
      ensures forall k | k != key :: Fewer(old(Level(k)), Level(k))
    {
      hide Distinct, Suffix, Remove, Touch, TableSound;
      GetKeepsValid(lru.View(), key, now, lru.ttl, lru.maxsize);
      seen := lru.Get(key, now);
    }

    /** The table's part of a lookup's second section. */
    method Decide(key: Key, seen: Option<Record>, now: real) returns (verdict: Verdict)
      requires Shape()
      modifies this`files
      ensures Shape()
      ensures verdict == Judge(old(Level(key)), seen, now, maxAge)
      ensures files.entries == if verdict.Drop? then old(files.entries) - {key} else old(files.entries)
    {
      hide Distinct, Remove;
      var metadata := if seen.Some? then seen
                      else if key in files.entries then Some(files.entries[key]) else None;
      if metadata.None? {
        return Nothing;
      }
      if Recent(metadata.value, now, maxAge) {
        return Keep(metadata.value);
      }
      DropTable(key);
      return Verdict.Drop;
    }

    method PutLru(key: Key, data: Record, now: real)
      requires Shape()
      modifies lru
      ensures Shape()
      ensures Level(key) == old(Level(key)).(lru := if lru.maxsize > 0 then Some(data) else None)
      ensures lru.View() == AfterPut(old(lru.View()), key, data, now, lru.maxsize)
      ensures forall k | k != key :: Fewer(old(Level(k)), Level(k))
    {
      hide Distinct, Suffix, Remove, Touch, TableSound;
      PutKeepsValid(lru.View(), key, data, now, lru.maxsize);
      NewestIsKept(lru.View(), key, data, now, lru.maxsize);
      PutNeedsSpace(lru.View(), key, data, now, lru.maxsize);
      lru.Put(key, data, now);
    }

    method DropLru(key: Key)
      requires Shape()
      modifies lru
      ensures Shape() && lru.entries == old(lru.entries) - {key}
    {
      hide Distinct, Remove, TableSound;
      lru.Invalidate(key);
    }

    method StoreTable(key: Key, data: Record)
      requires Shape()
      modifies this`files
      ensures Shape() && key in files.entries && files.entries[key] == data
      ensures files.entries.Keys == old(AfterStore(files, key))
      ensures forall k | k in files.entries && k != key :: k in old(files.entries)
                && files.entries[k] == old(files.entries)[k]
    {
      hide TableSound, Trimmed, AfterStore;
      StoreKeepsTable(files, key, data);
      files := Trimmed(Store(files, key, data));
    }

    method DropTable(key: Key)
      requires Shape()
      modifies this`files
      ensures Shape() && files.entries == old(files.entries) - {key}
    {
      hide Distinct;
      if key in files.entries {
        DropKeepsTable(files, key);
        files := WithoutKey(files, key);
      }
    }

    // The calls, one after the other.

    /** `get_file_metadata`: the latest record when it is available, else nothing. */
    method GetFileMetadata(key: Key, now: real) returns (found: Option<Record>)
      requires Valid()
      modifies this, lru
      ensures Valid() && latest == old(latest)
      ensures found.Some? <==> old(Available(key, now))
      ensures found.Some? ==> found.value == latest[key]
      ensures found.Some? ==> files.entries == old(files.entries) && (lru.maxsize > 0 ==> key in lru.entries)
      ensures found.None? ==> key !in lru.entries && key !in files.entries
      ensures forall k | k != key :: k in files.entries <==> k in old(files.entries)
    {
      hide TableSound, Distinct, AfterPut;
      assert InOrder(key);
      var seen := Peek(key, now);
      var verdict := Decide(key, seen, now);
      match verdict {
        case Nothing => found := None;
        case Keep(record) =>
          PutLru(key, record, now);
          found := Some(record);
        case Drop =>
          DropLru(key);
          found := None;
      }
      forall k ensures InOrder(k) {
        assert old(InOrder(k));
      }
    }

    /** `save_file_metadata` */
    method SaveFileMetadata(key: Key, data: Record, now: real)
      requires Valid()
      modifies this, lru
      ensures Valid() && latest == old(latest)[key := data]
      ensures key in files.entries && (lru.maxsize > 0 ==> key in lru.entries)
      ensures files.entries.Keys == old(AfterStore(files, key))
      ensures lru.View() == AfterPut(old(lru.View()), key, data, now, lru.maxsize)
    {
      hide TableSound, Distinct, AfterStore;
      PutLru(key, data, now);
      StoreTable(key, data);
      latest := latest[key := data];
      forall k ensures InOrder(k) {
        assert old(InOrder(k));
      }
    }

    /** `cleanup_file_metadata` */
    method CleanupFileMetadata(key: Key)
      requires Valid()
      modifies this, lru
      ensures Valid() && latest == old(latest) - {key}
      ensures files.entries == old(files.entries) - {key} && lru.entries == old(lru.entries) - {key}
    {
      hide TableSound, Distinct;
      DropLru(key);
      DropTable(key);
      latest := latest - {key};
      forall k ensures InOrder(k) {
        assert old(InOrder(k));
      }
    }

    /** `cleanup_stale_metadata`: forgets the stored paths that are not expected. */
    method CleanupStaleMetadata(expected: set<Key>) returns (removed: nat)
      requires Valid()
      modifies this, lru
      ensures Valid()
      ensures var gone := set k | k in old(files.entries) && k !in expected;
              && latest == old(latest) - gone && removed == |gone|
              && files.entries == old(files.entries) - gone
              && forall k | k in gone :: k !in lru.entries
    {
      hide Valid;
      ghost var gone := set k | k in files.entries && k !in expected;
      ghost var before, table := latest, files.entries;
      var todo := set k | k in files.entries && k !in expected;
      removed := 0;
      while todo != {}
        invariant Valid() && todo <= gone && removed == |gone| - |todo|
        invariant latest == before - (gone - todo) && files.entries == table - (gone - todo)
        invariant forall k | k in gone - todo :: k !in lru.entries
        decreases |todo|
      {
        var key :| key in todo;
        ForgetStale(key);
        assert gone - (todo - {key}) == (gone - todo) + {key};
        todo := todo - {key};
        removed := removed + 1;
      }
      assert gone - {} == gone;
    }

    /** One stale path: the table first, then the cache, under the table's lock. */
    method ForgetStale(key: Key)
      requires Valid()
      modifies this, lru
      ensures Valid() && latest == old(latest) - {key}
      ensures files.entries == old(files.entries) - {key} && lru.entries == old(lru.entries) - {key}
    {
      hide TableSound, Distinct;
      DropTable(key);
      DropLru(key);
      latest := latest - {key};
      forall k ensures InOrder(k) {
        assert old(InOrder(k));
      }
    }
  }

  lemma NewestIsKept<V>(c: Cache<V>, k: Key, v: V, now: real, maxsize: nat)
    ensures maxsize > 0 ==> k in AfterPut(c, k, v, now, maxsize).entries
  {
    var t := Touch(c.order, k);
    assert t[|t| - 1] == k;
    assert maxsize > 0 ==> Suffix(t, maxsize)[|Suffix(t, maxsize)| - 1] == k;
  }

  lemma PutNeedsSpace<V>(c: Cache<V>, k: Key, v: V, now: real, maxsize: nat)
    ensures maxsize == 0 ==> AfterPut(c, k, v, now, maxsize).entries == map[]
  {
    assert maxsize == 0 ==> Suffix(Touch(c.order, k), maxsize) == [];
  }
}
