/** Validation of remote names against the destination's filename behaviour
    (filename_mapping.py): `FilenameMap` and the MOVE archive check built on it. */
module FilenameMaps {
  import opened Collections

  type Name = string

  /** Components below the map's root. */
  type Path = seq<Name>

  datatype Listing = Missing | Unreadable | Names(names: set<Name>)

  /** The destination: Unicode normalisation, case folding, the case probe of each
      directory (`None` when it fails), directory listings and existing entries. */
  datatype Filesystem = Filesystem(
    nfc: Name -> Name, fold: Name -> Name,
    sensitive: Path -> Option<bool>, listing: Path -> Listing, exists_: Path -> bool)

  function Normal(fs: Filesystem, raw: Path): Path {
    seq(|raw|, i requires 0 <= i < |raw| => fs.nfc(raw[i]))
  }

  function Parent(p: Path): Path {
    if p == [] then [] else p[..|p| - 1]
  }

  function Last(p: Path): Name
    requires p != []
  {
    p[|p| - 1]
  }

  /** The entry of `folded` that a normalised path falls into. */
  function Slot(fs: Filesystem, p: Path): (Path, Name)
    requires p != []
  {
    (Parent(p), fs.fold(Last(p)))
  }

  /** `nodes` maps a normalised prefix to its one spelling and whether it is a
      file; `folded` the last name seen for each folded name of a directory. */
  datatype State = State(nodes: map<Path, (Path, bool)>, folded: map<(Path, Name), Name>)

  /** Nothing exists under this spelling unless the directory lists its normal form. */
  predicate LocalOk(fs: Filesystem, original: Path)
    requires original != []
  {
    match fs.listing(Parent(original))
    case Unreadable => false
    case Missing => true
    case Names(names) => fs.nfc(Last(original)) in names || !fs.exists_(original)
  }

  /** Another name of the directory folds alike and the directory may not tell them apart. */
  predicate Clashes(fs: Filesystem, s: State, original: Path)
    requires original != []
  {
    var prefix := Normal(fs, original);
    && Slot(fs, prefix) in s.folded && s.folded[Slot(fs, prefix)] != Last(prefix)
    && fs.sensitive(Parent(original)) != Some(true)
  }

  function Insert(fs: Filesystem, s: State, original: Path, isFile: bool): State
    requires original != []
  {
    var prefix := Normal(fs, original);
    State(s.nodes[prefix := (original, isFile)], s.folded[Slot(fs, prefix) := Last(prefix)])
  }

  /** One turn of the loop in `key`, for one prefix; `None` when it raises. */
  function CheckPrefix(fs: Filesystem, s: State, original: Path, isFile: bool): Option<State>
    requires original != []
  {
    var prefix := Normal(fs, original);
    if prefix in s.nodes then
      if s.nodes[prefix] == (original, isFile) then Some(s) else None
    else if Clashes(fs, s, original) || !LocalOk(fs, original) then None
    else Some(Insert(fs, s, original, isFile))
  }

  /** `key` from the prefix of the given length on: the state it leaves and
      whether it accepts. Prefixes recorded before a rejection stay recorded. */
  function Check(fs: Filesystem, s: State, raw: Path, directory: bool, length: nat): (State, bool)
    requires 1 <= length
    decreases |raw| - length
  {
    if length > |raw| then (s, true) else
      var next := CheckPrefix(fs, s, raw[..length], length == |raw| && !directory);
      if next.None? then (s, false) else Check(fs, next.value, raw, directory, length + 1)
  }

  // ---------------------------------------------------------------- invariant

  predicate Recorded(fs: Filesystem, s: State, original: Path, isFile: bool) {
    Normal(fs, original) in s.nodes && s.nodes[Normal(fs, original)] == (original, isFile)
  }

  predicate NodeOk(fs: Filesystem, s: State, p: Path)
    requires p in s.nodes
  {
    var raw := s.nodes[p].0;
    && p != [] && Normal(fs, raw) == p
    && (|p| > 1 ==> Recorded(fs, s, Parent(raw), false))
    && Slot(fs, p) in s.folded
    && LocalOk(fs, raw)
  }

  /** Two names of one directory that fold alike are only kept where the
      directory tells them apart. */
  predicate ApartOk(fs: Filesystem, s: State, p: Path, q: Path)
    requires p in s.nodes && q in s.nodes
  {
    p != q && p != [] && q != [] && Slot(fs, p) == Slot(fs, q) ==>
      fs.sensitive(Parent(s.nodes[p].0)) == Some(true)
  }

  predicate SlotOk(fs: Filesystem, s: State, slot: (Path, Name))
    requires slot in s.folded
  {
    slot.0 + [s.folded[slot]] in s.nodes && fs.fold(s.folded[slot]) == slot.1
  }

  predicate StateOk(fs: Filesystem, s: State) {
    && (forall p | p in s.nodes :: NodeOk(fs, s, p))
    && (forall p, q | p in s.nodes && q in s.nodes :: ApartOk(fs, s, p, q))
    && (forall slot | slot in s.folded :: SlotOk(fs, s, slot))
  }

  /** Everything recorded stays recorded as it was. */
  predicate Extends(s: State, s': State) {
    forall p | p in s.nodes :: p in s'.nodes && s'.nodes[p] == s.nodes[p]
  }

  /** The prefixes of `raw` up to `length` are recorded under this spelling. */
  predicate Walked(fs: Filesystem, s: State, raw: Path, directory: bool, length: nat) {
    forall i | 1 <= i <= length && i <= |raw| :: Recorded(fs, s, raw[..i], i == |raw| && !directory)
  }

  lemma NormalParts(fs: Filesystem, raw: Path, i: nat)
    requires i <= |raw|
    ensures Normal(fs, raw[..i]) == Normal(fs, raw)[..i]
  {}

  lemma NormalParent(fs: Filesystem, raw: Path)
    ensures Normal(fs, Parent(raw)) == Parent(Normal(fs, raw))
  {}

  lemma Rejoin(p: Path)
    requires p != []
    ensures Parent(p) + [Last(p)] == p
  {}

  lemma InsertKeepsNode(fs: Filesystem, s: State, original: Path, isFile: bool, p: Path)
    requires original != [] && Normal(fs, original) !in s.nodes
    requires p in s.nodes && NodeOk(fs, s, p)
    ensures p in Insert(fs, s, original, isFile).nodes && NodeOk(fs, Insert(fs, s, original, isFile), p)
  {
    hide LocalOk, Slot, Parent, Normal, Last;
  }

  lemma InsertedNode(fs: Filesystem, s: State, original: Path, isFile: bool)
    requires original != [] && Normal(fs, original) !in s.nodes && LocalOk(fs, original)
    requires |original| > 1 ==> Recorded(fs, s, Parent(original), false)
    ensures Normal(fs, original) in Insert(fs, s, original, isFile).nodes
    ensures NodeOk(fs, Insert(fs, s, original, isFile), Normal(fs, original))
  {
    hide LocalOk, Slot, Last;
    assert |Normal(fs, Parent(original))| != |Normal(fs, original)|;
  }

  /** A new name that folds like a recorded one is only added to a case-sensitive directory. */
  lemma NewNameIsApart(fs: Filesystem, s: State, original: Path, isFile: bool, q: Path)
    requires original != [] && Normal(fs, original) !in s.nodes && !Clashes(fs, s, original)
    requires |original| > 1 ==> Recorded(fs, s, Parent(original), false)
    requires q in s.nodes && NodeOk(fs, s, q) && forall slot | slot in s.folded :: SlotOk(fs, s, slot)
    ensures var s' := Insert(fs, s, original, isFile);
            ApartOk(fs, s', Normal(fs, original), q) && ApartOk(fs, s', q, Normal(fs, original))
  {
    hide LocalOk, Clashes, Normal, Parent, Last, Recorded, SlotOk;
    var p := Normal(fs, original);
    SameLength(fs, original);
    if Slot(fs, p) == Slot(fs, q) {
      FoldedAlike(fs, s, original, q);
      SiblingsShareParent(fs, s, original, q);
    }
  }

  lemma SameLength(fs: Filesystem, raw: Path)
    ensures |Normal(fs, raw)| == |raw|
  {}

  lemma FoldedAlike(fs: Filesystem, s: State, original: Path, q: Path)
    requires original != [] && Normal(fs, original) !in s.nodes && !Clashes(fs, s, original)
    requires q != [] && Slot(fs, q) in s.folded && Slot(fs, q) == Slot(fs, Normal(fs, original))
    requires SlotOk(fs, s, Slot(fs, q))
    ensures fs.sensitive(Parent(original)) == Some(true)
  {
    Rejoin(Normal(fs, original));
  }

  lemma SiblingsShareParent(fs: Filesystem, s: State, original: Path, q: Path)
    requires original != [] && q in s.nodes && q != []
    requires Normal(fs, s.nodes[q].0) == q && Parent(q) == Parent(Normal(fs, original))
    requires |original| > 1 ==> Recorded(fs, s, Parent(original), false)
    requires |q| > 1 ==> Recorded(fs, s, Parent(s.nodes[q].0), false)
    ensures Parent(s.nodes[q].0) == Parent(original)
  {
    NormalParent(fs, original);
    NormalParent(fs, s.nodes[q].0);
    assert |Parent(q)| == |q| - 1 == |original| - 1;
    if |q| == 1 {
      assert Parent(s.nodes[q].0) == [] == Parent(original);
    }
  }

  lemma InsertKeepsSlot(fs: Filesystem, s: State, original: Path, isFile: bool, slot: (Path, Name))
    requires original != []
    requires slot == Slot(fs, Normal(fs, original)) || (slot in s.folded && SlotOk(fs, s, slot))
    ensures SlotOk(fs, Insert(fs, s, original, isFile), slot)
  {
    Rejoin(Normal(fs, original));
  }

  lemma InsertKeepsState(fs: Filesystem, s: State, original: Path, isFile: bool)
    requires StateOk(fs, s) && original != [] && Normal(fs, original) !in s.nodes
    requires !Clashes(fs, s, original) && LocalOk(fs, original)
    requires |original| > 1 ==> Recorded(fs, s, Parent(original), false)
    ensures StateOk(fs, Insert(fs, s, original, isFile))
  {
    hide NodeOk, SlotOk, LocalOk, Clashes, Recorded, Normal, Parent, Last;
    var s', prefix := Insert(fs, s, original, isFile), Normal(fs, original);
    forall p | p in s'.nodes ensures NodeOk(fs, s', p) {
      if p == prefix {
        InsertedNode(fs, s, original, isFile);
      } else {
        InsertKeepsNode(fs, s, original, isFile, p);
      }
    }
    forall p, q | p in s'.nodes && q in s'.nodes ensures ApartOk(fs, s', p, q) {
      if p == prefix && q != prefix {
        NewNameIsApart(fs, s, original, isFile, q);
      } else if q == prefix && p != prefix {
        NewNameIsApart(fs, s, original, isFile, p);
      } else {
        assert p != q ==> ApartOk(fs, s, p, q);
      }
    }
    forall slot | slot in s'.folded ensures SlotOk(fs, s', slot) {
      InsertKeepsSlot(fs, s, original, isFile, slot);
    }
  }

  lemma PrefixKeepsState(fs: Filesystem, s: State, raw: Path, directory: bool, length: nat)
    requires StateOk(fs, s) && 1 <= length <= |raw| && Walked(fs, s, raw, directory, length - 1)
    ensures var next := CheckPrefix(fs, s, raw[..length], length == |raw| && !directory);
            next.Some? ==>
              StateOk(fs, next.value) && Walked(fs, next.value, raw, directory, length) && Extends(s, next.value)
  {
    hide StateOk, LocalOk, Clashes, Slot, Last;
    var original, isFile := raw[..length], length == |raw| && !directory;
    var next := CheckPrefix(fs, s, original, isFile);
    assert Parent(original) == raw[..length - 1];
    assert length > 1 ==> Recorded(fs, s, raw[..length - 1], false);
    if next.Some? && Normal(fs, original) !in s.nodes {
      InsertKeepsState(fs, s, original, isFile);
      forall i | 1 <= i <= length ensures Recorded(fs, next.value, raw[..i], i == |raw| && !directory) {
        if i < length {
          assert |Normal(fs, raw[..i])| != |Normal(fs, original)|;
          assert Recorded(fs, s, raw[..i], false);
        }
      }
    }
  }

  /** A call keeps the state sound, forgets nothing, and records the whole path when it accepts. */
  lemma {:induction false} CheckKeepsState(fs: Filesystem, s: State, raw: Path, directory: bool, length: nat)
    requires StateOk(fs, s) && 1 <= length && Walked(fs, s, raw, directory, length - 1)
    ensures var (s', ok) := Check(fs, s, raw, directory, length);
            StateOk(fs, s') && (ok ==> Walked(fs, s', raw, directory, |raw|)) && Extends(s, s')
    decreases |raw| - length
  {
    hide StateOk, CheckPrefix, Recorded;
    if length <= |raw| {
      PrefixKeepsState(fs, s, raw, directory, length);
      var next := CheckPrefix(fs, s, raw[..length], length == |raw| && !directory);
      if next.Some? {
        CheckKeepsState(fs, next.value, raw, directory, length + 1);
      }
    }
  }

  // ------------------------------------------------------- when a path is accepted

  /** Whether a path may be used as it is spelled, by what was recorded before: it is
      recorded just so; or it is new, no recorded name of its directory folds like it
      unless the directory tells them apart, and on the destination it is listed in its
      normal form, or does not exist, in a directory that is missing or can be read. */
  ghost predicate Acceptable(fs: Filesystem, s: State, original: Path, isFile: bool)
    requires original != []
  {
    var prefix := Normal(fs, original);
    if prefix in s.nodes then s.nodes[prefix] == (original, isFile) else
    && (forall q | q in s.nodes && FoldsAlike(fs, q, prefix) :: fs.sensitive(Parent(original)) == Some(true))
    && !fs.listing(Parent(original)).Unreadable?
    && (fs.listing(Parent(original)).Names? && fs.exists_(original) ==>
          Last(prefix) in fs.listing(Parent(original)).names)
  }

  predicate FoldsAlike(fs: Filesystem, q: Path, p: Path) {
    q != [] && p != [] && Parent(q) == Parent(p) && fs.fold(Last(q)) == fs.fold(Last(p))
  }

  lemma ClashDecided(fs: Filesystem, s: State, original: Path)
    requires StateOk(fs, s) && original != [] && Normal(fs, original) !in s.nodes
    ensures Clashes(fs, s, original) <==>
            (exists q :: q in s.nodes && FoldsAlike(fs, q, Normal(fs, original)))
            && fs.sensitive(Parent(original)) != Some(true)
  {
    hide NodeOk, SlotOk, ApartOk, FoldsAlike, Normal, Parent, Last, Slot;
    SameLength(fs, original);
    var prefix := Normal(fs, original);
    var slot := Slot(fs, prefix);
    if slot in s.folded {
      assert SlotOk(fs, s, slot);
      SlotHasName(fs, s, prefix);
    }
    forall q | q in s.nodes && FoldsAlike(fs, q, prefix) ensures slot in s.folded {
      NodeHasSlot(fs, s, q, prefix);
    }
  }

  lemma SlotHasName(fs: Filesystem, s: State, prefix: Path)
    requires prefix != [] && prefix !in s.nodes && Slot(fs, prefix) in s.folded && SlotOk(fs, s, Slot(fs, prefix))
    ensures s.folded[Slot(fs, prefix)] != Last(prefix)
    ensures exists q :: q in s.nodes && FoldsAlike(fs, q, prefix)
  {
    Rejoin(prefix);
    var q := Slot(fs, prefix).0 + [s.folded[Slot(fs, prefix)]];
    assert q in s.nodes && FoldsAlike(fs, q, prefix);
  }

  lemma NodeHasSlot(fs: Filesystem, s: State, q: Path, prefix: Path)
    requires q in s.nodes && NodeOk(fs, s, q) && FoldsAlike(fs, q, prefix)
    ensures Slot(fs, prefix) in s.folded
  {
    hide LocalOk, Recorded, Normal;
  }

  lemma PrefixDecided(fs: Filesystem, s: State, original: Path, isFile: bool)
    requires StateOk(fs, s) && original != []
    ensures CheckPrefix(fs, s, original, isFile).Some? <==> Acceptable(fs, s, original, isFile)
  {
    hide StateOk, Clashes, FoldsAlike, Parent;
    if Normal(fs, original) !in s.nodes {
      ClashDecided(fs, s, original);
    }
  }

  /** Recording one level decides nothing about another. */
  lemma OtherLevelsSame(fs: Filesystem, s: State, a: Path, aIsFile: bool, b: Path, isFile: bool)
    requires a != [] && b != [] && |a| != |b|
    ensures Acceptable(fs, Insert(fs, s, a, aIsFile), b, isFile) == Acceptable(fs, s, b, isFile)
  {
    var s', p := Insert(fs, s, a, aIsFile), Normal(fs, b);
    assert |Normal(fs, a)| != |p|;
    assert forall q | q in s'.nodes && FoldsAlike(fs, q, p) :: q in s.nodes;
  }

  /** A call accepts exactly when every prefix of the path is acceptable as things were
      before the call; the order of the levels and the state in between do not matter. */
  lemma {:induction false} CheckDecided(fs: Filesystem, s: State, raw: Path, directory: bool, length: nat)
    requires StateOk(fs, s) && 1 <= length && Walked(fs, s, raw, directory, length - 1)
    ensures Check(fs, s, raw, directory, length).1 <==>
            forall n | length <= n <= |raw| :: Acceptable(fs, s, raw[..n], n == |raw| && !directory)
    decreases |raw| - length
  {
    hide StateOk, Acceptable, Walked, Insert, Clashes, LocalOk;
    if length <= |raw| {
      var original, isFile := raw[..length], length == |raw| && !directory;
      var next := CheckPrefix(fs, s, original, isFile);
      PrefixDecided(fs, s, original, isFile);
      if next.Some? {
        PrefixKeepsState(fs, s, raw, directory, length);
        CheckDecided(fs, next.value, raw, directory, length + 1);
        forall n | length < n <= |raw|
          ensures Acceptable(fs, next.value, raw[..n], n == |raw| && !directory)
                  == Acceptable(fs, s, raw[..n], n == |raw| && !directory)
        {
          OtherLevelsSame(fs, s, original, isFile, raw[..n], n == |raw| && !directory);
        }
      }
    }
  }

  // --------------------------------------------------------- runs of `key` calls

  /** A call of `key`: a path, and whether it names a directory. */
  datatype Call = Call(raw: Path, directory: bool)

  const EMPTY: State := State(map[], map[])

  function AfterCalls(fs: Filesystem, calls: seq<Call>): State {
    if calls == [] then EMPTY else
      var last := calls[|calls| - 1];
      Check(fs, AfterCalls(fs, calls[..|calls| - 1]), last.raw, last.directory, 1).0
  }

  /** The `i`-th call was accepted. */
  predicate AcceptedAt(fs: Filesystem, calls: seq<Call>, i: nat)
    requires i < |calls|
  {
    Check(fs, AfterCalls(fs, calls[..i]), calls[i].raw, calls[i].directory, 1).1
  }

  lemma OneMoreCall(fs: Filesystem, calls: seq<Call>, i: nat)
    requires i < |calls|
    ensures var (s, ok) := Check(fs, AfterCalls(fs, calls[..i]), calls[i].raw, calls[i].directory, 1);
            AfterCalls(fs, calls[..i + 1]) == s && AcceptedAt(fs, calls, i) == ok
  {
    assert calls[..i + 1][..i] == calls[..i];
  }

  lemma EarlierCall(fs: Filesystem, calls: seq<Call>, i: nat, n: nat)
    requires i < n <= |calls|
    ensures AcceptedAt(fs, calls[..n], i) == AcceptedAt(fs, calls, i)
  {
    assert calls[..n][..i] == calls[..i];
  }

  lemma NothingWalked(fs: Filesystem, s: State, raw: Path, directory: bool)
    ensures Walked(fs, s, raw, directory, 0)
  {}

  lemma ExtendsWalked(fs: Filesystem, s: State, s': State, raw: Path, directory: bool)
    requires Extends(s, s') && Walked(fs, s, raw, directory, |raw|)
    ensures Walked(fs, s', raw, directory, |raw|)
  {
    hide Normal;
    forall i | 1 <= i <= |raw| ensures Recorded(fs, s', raw[..i], i == |raw| && !directory) {
      assert Recorded(fs, s, raw[..i], i == |raw| && !directory);
    }
  }

  /** After any sequence of calls, every accepted path is recorded as it was given. */
  lemma {:induction false} CallsKeepState(fs: Filesystem, calls: seq<Call>)
    ensures StateOk(fs, AfterCalls(fs, calls))
    ensures forall i | 0 <= i < |calls| && AcceptedAt(fs, calls, i) ::
              Walked(fs, AfterCalls(fs, calls), calls[i].raw, calls[i].directory, |calls[i].raw|)
    decreases |calls|
  {
    if calls != [] {
      var n := |calls| - 1;
      OneMoreCall(fs, calls, n);
      hide Check, Walked, Extends, StateOk, AcceptedAt, AfterCalls, Normal;
      var before, after := AfterCalls(fs, calls[..n]), AfterCalls(fs, calls);
      assert calls[..n + 1] == calls;
      CallsKeepState(fs, calls[..n]);
      NothingWalked(fs, before, calls[n].raw, calls[n].directory);
      CheckKeepsState(fs, before, calls[n].raw, calls[n].directory, 1);
      forall i | 0 <= i < |calls| && AcceptedAt(fs, calls, i)
        ensures Walked(fs, after, calls[i].raw, calls[i].directory, |calls[i].raw|)
      {
        if i < n {
          EarlierCall(fs, calls, i, n);
          ExtendsWalked(fs, before, after, calls[i].raw, calls[i].directory);
        }
      }
    }
  }

  // ----------------------------------------------------------------- theorems

  /** How the filesystem compares two names of one directory. */
  predicate SameName(fs: Filesystem, directory: Path, a: Name, b: Name) {
    || fs.nfc(a) == fs.nfc(b)
    || (fs.sensitive(directory) != Some(true) && fs.fold(fs.nfc(a)) == fs.fold(fs.nfc(b)))
  }

  /** Two paths lead to the same entry when they agree at every level. */
  predicate SameEntry(fs: Filesystem, a: Path, b: Path) {
    |a| == |b| && forall i | 0 <= i < |a| :: SameName(fs, a[..i], a[i], b[i])
  }

  predicate SpelledSo(fs: Filesystem, s: State, original: Path) {
    Normal(fs, original) in s.nodes && s.nodes[Normal(fs, original)].0 == original
  }

  /** The path and everything above it is recorded as it is spelled. */
  predicate SpelledAll(fs: Filesystem, s: State, original: Path)
    decreases |original|
  {
    original == [] || (SpelledSo(fs, s, original) && SpelledAll(fs, s, Parent(original)))
  }

  lemma {:induction false} WalkedIsSpelled(fs: Filesystem, s: State, raw: Path, directory: bool, n: nat)
    requires n <= |raw| && Walked(fs, s, raw, directory, n)
    ensures SpelledAll(fs, s, raw[..n])
    decreases n
  {
    hide Normal;
    if n > 0 {
      assert Recorded(fs, s, raw[..n], n == |raw| && !directory);
      assert Parent(raw[..n]) == raw[..n - 1];
      WalkedIsSpelled(fs, s, raw, directory, n - 1);
    }
  }

  lemma SameAbove(fs: Filesystem, a: Path, b: Path)
    requires SameEntry(fs, a, b) && a != []
    ensures SameEntry(fs, Parent(a), Parent(b)) && SameName(fs, Parent(a), Last(a), Last(b))
  {
    hide SameName;
    assert forall i | 0 <= i < |a| - 1 :: Parent(a)[..i] == a[..i];
  }

  /** Recorded paths that lead to the same entry are the same path, spelled alike. */
  lemma {:induction false} RecordedEntriesDiffer(fs: Filesystem, s: State, a: Path, b: Path)
    requires StateOk(fs, s) && SpelledAll(fs, s, a) && SpelledAll(fs, s, b) && SameEntry(fs, a, b)
    ensures a == b
    decreases |a|
  {
    if a != [] {
      SameAbove(fs, a, b);
      RecordedEntriesDiffer(fs, s, Parent(a), Parent(b));
      hide SameName, Parent, Last, StateOk, SpelledSo;
      LastNamesAgree(fs, s, a, b);
    }
  }

  lemma LastNamesAgree(fs: Filesystem, s: State, a: Path, b: Path)
    requires StateOk(fs, s) && |a| == |b| > 0 && Parent(a) == Parent(b)
    requires SpelledSo(fs, s, a) && SpelledSo(fs, s, b)
    requires SameName(fs, Parent(a), Last(a), Last(b))
    ensures a == b
  {
    hide NodeOk, SlotOk;
    var p, q := Normal(fs, a), Normal(fs, b);
    NormalParent(fs, a);
    NormalParent(fs, b);
    Rejoin(p);
    Rejoin(q);
    assert ApartOk(fs, s, p, q);
  }

  /** Accepted paths whose common length leads to one entry share that prefix,
      spelled alike, and both are recorded in the final state. */
  lemma AcceptedPrefixesAgree(fs: Filesystem, calls: seq<Call>, i: nat, j: nat)
    requires i < |calls| && j < |calls| && AcceptedAt(fs, calls, i) && AcceptedAt(fs, calls, j)
    requires |calls[i].raw| <= |calls[j].raw|
    requires SameEntry(fs, calls[i].raw, calls[j].raw[..|calls[i].raw|])
    ensures calls[j].raw[..|calls[i].raw|] == calls[i].raw
    ensures |calls[i].raw| > 0 ==>
              (|calls[i].raw| == |calls[j].raw| && !calls[j].directory) == !calls[i].directory
  {
    hide AcceptedAt, AfterCalls, StateOk, SameName, SameEntry, SpelledAll, Normal;
    CallsKeepState(fs, calls);
    var s, a, b := AfterCalls(fs, calls), calls[i].raw, calls[j].raw;
    var n := |a|;
    assert Walked(fs, s, a, calls[i].directory, n) && Walked(fs, s, b, calls[j].directory, |b|);
    assert Walked(fs, s, b, calls[j].directory, n);
    WalkedIsSpelled(fs, s, a, calls[i].directory, n);
    WalkedIsSpelled(fs, s, b, calls[j].directory, n);
    assert a[..n] == a;
    RecordedEntriesDiffer(fs, s, a, b[..n]);
    if n > 0 {
      assert Recorded(fs, s, a[..n], !calls[i].directory);
      assert Recorded(fs, s, b[..n], n == |b| && !calls[j].directory);
    }
  }

  /** The `i`-th call is accepted exactly when all its prefixes are acceptable. */
  lemma AcceptedExactlyWhen(fs: Filesystem, calls: seq<Call>, i: nat)
    requires i < |calls|
    ensures AcceptedAt(fs, calls, i) <==>
            forall n | 1 <= n <= |calls[i].raw| ::
              Acceptable(fs, AfterCalls(fs, calls[..i]), calls[i].raw[..n],
                         n == |calls[i].raw| && !calls[i].directory)
  {
    hide Acceptable, Check, StateOk, AfterCalls;
    CallsKeepState(fs, calls[..i]);
    NothingWalked(fs, AfterCalls(fs, calls[..i]), calls[i].raw, calls[i].directory);
    CheckDecided(fs, AfterCalls(fs, calls[..i]), calls[i].raw, calls[i].directory, 1);
  }

  /** What is recorded was asked for: a prefix of some call's path, as that call spelled it. */
  ghost predicate AskedFor(calls: seq<Call>, original: Path) {
    exists i, n :: 0 <= i < |calls| && 0 <= n <= |calls[i].raw| && original == calls[i].raw[..n]
  }

  lemma {:induction false} CheckRecordsPrefixes(fs: Filesystem, s: State, raw: Path, directory: bool, length: nat)
    requires 1 <= length
    ensures var s' := Check(fs, s, raw, directory, length).0;
            forall p | p in s'.nodes ::
              (p in s.nodes && s'.nodes[p] == s.nodes[p]) || exists n :: 0 <= n <= |raw| && s'.nodes[p].0 == raw[..n]
    decreases |raw| - length
  {
    hide Clashes, LocalOk;
    if length <= |raw| {
      var next := CheckPrefix(fs, s, raw[..length], length == |raw| && !directory);
      if next.Some? {
        CheckRecordsPrefixes(fs, next.value, raw, directory, length + 1);
      }
    }
  }

  lemma {:induction false} RecordedWasAsked(fs: Filesystem, calls: seq<Call>)
    ensures forall p | p in AfterCalls(fs, calls).nodes :: AskedFor(calls, AfterCalls(fs, calls).nodes[p].0)
    decreases |calls|
  {
    if calls != [] {
      hide Check;
      var m := |calls| - 1;
      var before, s := calls[..m], AfterCalls(fs, calls);
      RecordedWasAsked(fs, before);
      CheckRecordsPrefixes(fs, AfterCalls(fs, before), calls[m].raw, calls[m].directory, 1);
      forall p | p in s.nodes ensures AskedFor(calls, s.nodes[p].0) {
        if i, n :| 0 <= i < |before| && 0 <= n <= |before[i].raw| && s.nodes[p].0 == before[i].raw[..n] {
          assert calls[i] == before[i];
        }
      }
    }
  }

  /** Two accepted calls for the same entry gave the same path; and, below the
      root, agreed on whether it is a directory. */
  lemma AcceptedEntriesDiffer(fs: Filesystem, calls: seq<Call>, i: nat, j: nat)
    requires i < |calls| && j < |calls| && AcceptedAt(fs, calls, i) && AcceptedAt(fs, calls, j)
    requires SameEntry(fs, calls[i].raw, calls[j].raw)
    ensures calls[i].raw == calls[j].raw
    ensures calls[i].raw != [] ==> calls[i].directory == calls[j].directory
  {
    hide AcceptedAt, SameName;
    assert calls[j].raw[..|calls[i].raw|] == calls[j].raw;
    AcceptedPrefixesAgree(fs, calls, i, j);
  }

  /** An accepted file is an ancestor of another accepted path exactly when it is
      the map's root itself, which `key` accepts as a file without recording it. */
  lemma AcceptedFileHasNothingBelow(fs: Filesystem, calls: seq<Call>, i: nat, j: nat)
    requires i < |calls| && j < |calls| && AcceptedAt(fs, calls, i) && AcceptedAt(fs, calls, j)
    requires !calls[i].directory && |calls[i].raw| < |calls[j].raw|
    ensures SameEntry(fs, calls[i].raw, calls[j].raw[..|calls[i].raw|]) <==> calls[i].raw == []
  {
    hide AcceptedAt, SameName;
    if SameEntry(fs, calls[i].raw, calls[j].raw[..|calls[i].raw|]) {
      AcceptedPrefixesAgree(fs, calls, i, j);
    }
  }

  /** The root itself is the exception: a call that names it as a file is always
      accepted and records nothing, so anything may still be accepted below it. */
  lemma RootFileIsNotRecorded(fs: Filesystem, name: Name)
    requires fs.listing([]) == Missing
    ensures var calls := [Call([], false), Call([name], false)];
            AcceptedAt(fs, calls, 0) && AcceptedAt(fs, calls, 1)
  {
    var calls := [Call([], false), Call([name], false)];
    assert calls[..0] == [] && calls[..1] == [calls[0]] && calls[..1][..0] == [];
    assert AfterCalls(fs, calls[..1]) == Check(fs, AfterCalls(fs, calls[..1][..0]), [], false, 1).0 == EMPTY;
    assert [name][..1] == [name] && Parent([name]) == [];
    var next := CheckPrefix(fs, EMPTY, [name][..1], true);
    assert next.Some?;
    assert Check(fs, next.value, [name], false, 2).1;
  }

  // ------------------------------------------------------------- the class itself

  class FilenameMap {
    const fs: Filesystem
    var nodes: map<Path, (Path, bool)>
    var folded: map<(Path, Name), Name>
    var sensitivity: map<Path, bool>
    var existing: map<Path, Option<set<Name>>>

    /** The two memo tables only repeat what the filesystem said. */
    ghost predicate Valid()
      reads this
    {
      && (forall p | p in sensitivity :: fs.sensitive(p) == Some(sensitivity[p]))
      && (forall p | p in existing ::
            fs.listing(p) == if existing[p].Some? then Names(existing[p].value) else Missing)
    }

    ghost function View(): State
      reads this
    {
      State(nodes, folded)
    }

    constructor (fs: Filesystem)
      ensures Valid() && View() == EMPTY && this.fs == fs
    {
      this.fs := fs;
      nodes, folded, sensitivity, existing := map[], map[], map[], map[];
    }

    /** `_existing_names`; `None` when the directory cannot be read. */
    method ExistingNames(parent: Path) returns (names: Option<Option<set<Name>>>)
      requires Valid()
      modifies this`existing
      ensures Valid()
      ensures fs.listing(parent) == if names.None? then Unreadable else if names.value.None? then Missing
                else Names(names.value.value)
    {
      if parent !in existing {
        match fs.listing(parent)
        case Unreadable => return None;
        case Missing => existing := existing[parent := None];
        case Names(found) => existing := existing[parent := Some(found)];
      }
      return Some(existing[parent]);
    }

    /** The memoised case probe; `None` when it fails. */
    method Probe(parent: Path) returns (sensitive: Option<bool>)
      requires Valid()
      modifies this`sensitivity
      ensures Valid() && sensitive == fs.sensitive(parent)
    {
      if parent !in sensitivity {
        var answer := fs.sensitive(parent);
        if answer.None? {
          return None;
        }
        sensitivity := sensitivity[parent := answer.value];
      }
      return Some(sensitivity[parent]);
    }

    /** `key`: accepted with the normalised components, or rejected. */
    method Key(local: Path, directory: bool) returns (key: Option<Path>)
      requires Valid()
      modifies this
      ensures Valid()
      ensures View() == Check(fs, old(View()), local, directory, 1).0
      ensures key == if Check(fs, old(View()), local, directory, 1).1 then Some(Normal(fs, local)) else None
      ensures old(StateOk(fs, View())) ==>
                StateOk(fs, View())
                && (key.Some? <==> forall n | 1 <= n <= |local| ::
                      old(Acceptable(fs, View(), local[..n], n == |local| && !directory)))
    {
      hide StateOk, Acceptable;
      NothingWalked(fs, View(), local, directory);
      if StateOk(fs, View()) {
        CheckDecided(fs, View(), local, directory, 1);
        CheckKeepsState(fs, View(), local, directory, 1);
      }
      var normalized := Normal(fs, local);
      for length := 1 to |local| + 1
        invariant Valid()
        invariant Check(fs, View(), local, directory, length) == Check(fs, old(View()), local, directory, 1)
      {
        var ok := KeyPrefix(local, normalized, directory, length);
        if !ok {
          return None;
        }
      }
      return Some(normalized);
    }

    /** The loop body of `key`. */
    method KeyPrefix(raw: Path, normalized: Path, directory: bool, length: nat) returns (ok: bool)
      requires Valid() && 1 <= length <= |raw| && normalized == Normal(fs, raw)
      modifies this
      ensures Valid()
      ensures var next := CheckPrefix(fs, old(View()), raw[..length], length == |raw| && !directory);
              ok == next.Some? && View() == if ok then next.value else old(View())
    {
      var prefix, original := normalized[..length], raw[..length];
      var isFile := length == |raw| && !directory;
      NormalParts(fs, raw, length);
      if prefix in nodes {
        return nodes[prefix] == (original, isFile);
      }
      var parent, name := raw[..length - 1], normalized[length - 1];
      assert Parent(original) == parent && Parent(prefix) == normalized[..length - 1];
      var slot := (normalized[..length - 1], fs.fold(name));
      if slot in folded && folded[slot] != name {
        var sensitive := Probe(parent);
        if sensitive != Some(true) {
          return false;
        }
      }
      var names := ExistingNames(parent);
      if names.None? || (names.value.Some? && name !in names.value.value && fs.exists_(original)) {
        return false;
      }
      nodes := nodes[prefix := (original, isFile)];
      folded := folded[slot := name];
      return true;
    }
  }

  // ------------------------------------------------------- MOVE archive validation

  /** `target.with_name(target.name + "_obsolete")` */
  function Archive(target: Path): Path
    requires target != []
  {
    target[..|target| - 1] + [target[|target| - 1] + "_obsolete"]
  }

  function MoveCalls(targets: seq<Path>): seq<Call>
    requires forall i | 0 <= i < |targets| :: targets[i] != []
  {
    seq(2 * |targets|, i requires 0 <= i < 2 * |targets| =>
      if i < |targets| then Call(targets[i], true)
      else Call(Archive(targets[i - |targets|]), true))
  }

  /** Entry-wise, one tree contains the other. */
  predicate TreesMeet(fs: Filesystem, a: Path, b: Path) {
    if |a| <= |b| then SameEntry(fs, a, b[..|a|]) else SameEntry(fs, b, a[..|b|])
  }

  /** No payload tree shares an entry with an archive tree. */
  predicate Apart(fs: Filesystem, targets: seq<Path>, i: nat, j: nat)
    requires i < |targets| && j < |targets| && targets[j] != []
  {
    !TreesMeet(fs, targets[i], Archive(targets[j])) && !TreesMeet(fs, Archive(targets[j]), targets[i])
  }

  /** Neither key is a prefix of the other. */
  predicate KeysDisjoint(fs: Filesystem, targets: seq<Path>, i: nat, j: nat)
    requires i < |targets| && j < |targets| && targets[j] != []
  {
    var payload, archive := Normal(fs, targets[i]), Normal(fs, Archive(targets[j]));
    !(archive <= payload) && !(payload <= archive)
  }

  /** The keys are taken in this order, all from one map. */
  method AcceptAll(fs: Filesystem, calls: seq<Call>) returns (ok: bool)
    ensures ok <==> forall k | 0 <= k < |calls| :: AcceptedAt(fs, calls, k)
  {
    hide Check, AcceptedAt;
    var names := new FilenameMap(fs);
    for i := 0 to |calls|
      invariant names.Valid() && names.fs == fs && names.View() == AfterCalls(fs, calls[..i])
      invariant forall k | 0 <= k < i :: AcceptedAt(fs, calls, k)
    {
      OneMoreCall(fs, calls, i);
      var key := names.Key(calls[i].raw, calls[i].directory);
      if key.None? {
        return false;
      }
    }
    return true;
  }

  /** `validate_move_targets`: every key must be accepted, and no payload key may
      be a prefix of an archive key or the other way round. */
  method ValidateMoveTargets(fs: Filesystem, targets: seq<Path>) returns (ok: bool)
    requires forall i | 0 <= i < |targets| :: targets[i] != []
    ensures ok <==> (forall k | 0 <= k < 2 * |targets| :: AcceptedAt(fs, MoveCalls(targets), k))
                    && forall i, j | 0 <= i < |targets| && 0 <= j < |targets| :: KeysDisjoint(fs, targets, i, j)
    ensures ok ==> forall i, j | 0 <= i < |targets| && 0 <= j < |targets| :: Apart(fs, targets, i, j)
  {
    hide Apart, AcceptedAt, Normal;
    var calls := MoveCalls(targets);
    ok := AcceptAll(fs, calls);
    if !ok {
      return;
    }
    for i := 0 to |targets|
      invariant forall k, l | 0 <= k < i && 0 <= l < |targets| :: Apart(fs, targets, k, l)
                  && KeysDisjoint(fs, targets, k, l)
    {
      for j := 0 to |targets|
        invariant forall l | 0 <= l < j :: Apart(fs, targets, i, l) && KeysDisjoint(fs, targets, i, l)
      {
        var payload, archive := Normal(fs, targets[i]), Normal(fs, Archive(targets[j]));
        if archive <= payload || payload <= archive {
          assert !KeysDisjoint(fs, targets, i, j);
          return false;
        }
        KeysApart(fs, targets, calls, i, j);
      }
    }
  }

  lemma KeysApart(fs: Filesystem, targets: seq<Path>, calls: seq<Call>, i: nat, j: nat)
    requires i < |targets| && j < |targets| && forall k | 0 <= k < |targets| :: targets[k] != []
    requires calls == MoveCalls(targets) && forall k | 0 <= k < |calls| :: AcceptedAt(fs, calls, k)
    requires KeysDisjoint(fs, targets, i, j)
    ensures Apart(fs, targets, i, j)
  {
    hide AcceptedAt, Normal, TreesMeet, Archive;
    AcceptedTreesMeet(fs, calls, i, |targets| + j);
    AcceptedTreesMeet(fs, calls, |targets| + j, i);
  }

  /** Accepted trees meet only where their keys do. */
  lemma AcceptedTreesMeet(fs: Filesystem, calls: seq<Call>, i: nat, j: nat)
    requires i < |calls| && j < |calls| && AcceptedAt(fs, calls, i) && AcceptedAt(fs, calls, j)
    ensures TreesMeet(fs, calls[i].raw, calls[j].raw) ==>
              Normal(fs, calls[i].raw) <= Normal(fs, calls[j].raw) || Normal(fs, calls[j].raw) <= Normal(fs,
                  calls[i].raw)
  {
    var a, b := calls[i].raw, calls[j].raw;
    if |a| <= |b| {
      InnerTree(fs, calls, i, j);
    } else {
      InnerTree(fs, calls, j, i);
    }
  }

  lemma InnerTree(fs: Filesystem, calls: seq<Call>, i: nat, j: nat)
    requires i < |calls| && j < |calls| && AcceptedAt(fs, calls, i) && AcceptedAt(fs, calls, j)
    requires |calls[i].raw| <= |calls[j].raw|
    ensures SameEntry(fs, calls[i].raw, calls[j].raw[..|calls[i].raw|]) ==>
              Normal(fs, calls[i].raw) <= Normal(fs, calls[j].raw)
  {
    hide AcceptedAt, SameEntry;
    if SameEntry(fs, calls[i].raw, calls[j].raw[..|calls[i].raw|]) {
      AcceptedPrefixesAgree(fs, calls, i, j);
      NormalParts(fs, calls[j].raw, |calls[i].raw|);
    }
  }
}
