/** Private transfer workspaces on disk (scratch.py): what makes one recognisable,
    and a state machine in which creation, writing and removal can stop at any
    file-system call and the next owner finds whatever was left. */
module ScratchStore {
  import opened Collections

  type Name = string

  datatype Kind = Staging | Chunks

  /** The complete JSON manifest of a workspace. */
  datatype Manifest = Manifest(target: string, kind: Kind, token: string, files: seq<Name>)

  /** What a file contains: a complete manifest, or anything else. A manifest cut
      short is not JSON, so it counts as anything else. */
  datatype Content = Complete(manifest: Manifest) | Bytes(bytes: seq<byte>)

  /** `_regular`: a regular, singly linked file of this user (a marker also of
      bounded size); everything else is left alone. */
  datatype Node = Regular(content: Content) | Irregular

  /** An entry of a scratch root: a real directory, or something else. */
  datatype Entry = Work(files: map<Name, Node>) | Stray

  type Dir = map<Name, Entry>

  const MARKER: Name := "owner.json"

  predicate IsHex(c: char) { '0' <= c <= '9' || 'a' <= c <= 'f' }
  predicate AllHex(s: string) { forall c | c in s :: IsHex(c) }

  /** `work_[0-9a-f]{32}` */
  predicate ValidWorkName(name: Name) {
    |name| == 37 && name[..5] == "work_" && AllHex(name[5..])
  }

  function TokenOf(name: Name): string
    requires ValidWorkName(name)
  {
    name[5..]
  }

  /** `chunk_\d{4,}_[0-9a-f]{16}\.part` */
  predicate ChunkName(name: Name) {
    var n := |name|;
    && n >= 32 && name[..6] == "chunk_" && name[n - 5..] == ".part" && name[n - 22] == '_'
    && AllHex(name[n - 21..n - 5]) && AllDigits(name[6..n - 22])
  }

  /** `_valid_names` */
  predicate ValidNames(kind: Kind, names: seq<Name>) {
    && names != [] && Distinct(names)
    && forall n | n in names ::
         if kind.Staging? then n == "staging.streaming" || n == "staging.assembling" else ChunkName(n)
  }

  lemma MarkerIsNoTransferName(kind: Kind, names: seq<Name>)
    requires ValidNames(kind, names)
    ensures MARKER !in names
  {
    assert |MARKER| == 10 && |"staging.streaming"| == 17 && |"staging.assembling"| == 18;
  }

  /** The marker that belongs to a workspace of this target, kind and name. */
  predicate OwnMarker(node: Node, target: string, kind: Kind, work: Name) {
    ValidWorkName(work) && node.Regular? && node.content.Complete? &&
    var m := node.content.manifest;
    m == Manifest(target, kind, TokenOf(work), m.files) && ValidNames(kind, m.files)
  }

  /** Only the marker and recorded transfer files, all regular. */
  predicate OnlyRecorded(files: map<Name, Node>, names: seq<Name>) {
    forall n | n in files :: (n == MARKER || n in names) && files[n].Regular?
  }

  /** What `_remove` checks before it deletes anything, apart from the lease. */
  predicate Recognised(entry: Entry, target: string, kind: Kind, work: Name) {
    && entry.Work? && MARKER in entry.files && OwnMarker(entry.files[MARKER], target, kind, work)
    && OnlyRecorded(entry.files, entry.files[MARKER].content.manifest.files)
  }

  // ------------------------------------------------------ what may be deleted, in full

  const HEX_DIGITS: string := "0123456789abcdef"

  predicate HexWord(s: string, n: nat) {
    |s| == n && forall c | c in s :: c in HEX_DIGITS
  }

  ghost predicate ChunkSpelled(name: Name, number: string, word: string) {
    name == "chunk_" + number + "_" + word + ".part" && |number| >= 4 && AllDigits(number) && HexWord(word, 16)
  }

  ghost predicate TransferName(kind: Kind, name: Name) {
    match kind
    case Staging => name == "staging.streaming" || name == "staging.assembling"
    case Chunks => exists number, word :: ChunkSpelled(name, number, word)
  }

  /** At least one transfer file, and none twice. */
  ghost predicate Fits(kind: Kind, names: seq<Name>) {
    && names != [] && (forall i, j | 0 <= i < j < |names| :: names[i] != names[j])
    && forall n | n in names :: TransferName(kind, n)
  }

  /** The marker names this target, this kind, the token of the workspace's own name
      and a list of transfer files; every entry is the marker or in that list, and a
      regular file. */
  ghost predicate Describes(files: map<Name, Node>, target: string, kind: Kind, work: Name, token: string,
                            names: seq<Name>)
  {
    && work == "work_" + token && HexWord(token, 32)
    && MARKER in files && files[MARKER] == Regular(Complete(Manifest(target, kind, token, names)))
    && Fits(kind, names)
    && forall n | n in files :: files[n].Regular? && (n == MARKER || n in names)
  }

  /** Nothing but a workspace of this owner and its recorded files. */
  ghost predicate Ours(entry: Entry, target: string, kind: Kind, work: Name) {
    entry.Work? && exists token, names :: Describes(entry.files, target, kind, work, token, names)
  }

  lemma HexIsSpelled(c: char)
    ensures IsHex(c) <==> c in HEX_DIGITS
  {
    if IsHex(c) {
      var i := if c <= '9' then c as int - '0' as int else c as int - 'a' as int + 10;
      assert HEX_DIGITS[i] == if i < 10 then '0' + i as char else 'a' + (i - 10) as char;
    }
  }

  lemma HexWords(s: string)
    ensures AllHex(s) <==> HexWord(s, |s|)
  {
    forall c | c in s ensures IsHex(c) <==> c in HEX_DIGITS {
      HexIsSpelled(c);
    }
  }

  lemma ChunkNameIsSpelled(name: Name)
    ensures ChunkName(name) <==> TransferName(Chunks, name)
  {
    if ChunkName(name) {
      var n := |name|;
      var number, word := name[6..n - 22], name[n - 21..n - 5];
      HexWords(word);
      assert name == "chunk_" + number + "_" + word + ".part";
      assert ChunkSpelled(name, number, word);
    }
    if number, word :| ChunkSpelled(name, number, word) {
      HexWords(word);
      assert name[6..|name| - 22] == number && name[|name| - 21..|name| - 5] == word;
    }
  }

  lemma NamesAreSpelled(kind: Kind, names: seq<Name>)
    ensures ValidNames(kind, names) <==> Fits(kind, names)
  {
    hide ChunkName;
    if kind.Chunks? {
      forall n ensures ChunkName(n) <==> TransferName(kind, n) {
        ChunkNameIsSpelled(n);
      }
    }
  }

  lemma WorkNameIsSpelled(work: Name)
    ensures ValidWorkName(work) <==> exists token :: work == "work_" + token && HexWord(token, 32)
    ensures ValidWorkName(work) ==> work == "work_" + TokenOf(work) && HexWord(TokenOf(work), 32)
    ensures forall token | work == "work_" + token && HexWord(token, 32) ::
              ValidWorkName(work) && TokenOf(work) == token
  {
    if ValidWorkName(work) {
      HexWords(TokenOf(work));
      assert work == "work_" + TokenOf(work);
    }
    forall token | work == "work_" + token && HexWord(token, 32)
      ensures ValidWorkName(work) && TokenOf(work) == token
    {
      HexWords(token);
      assert work[..5] == "work_" && work[5..] == token;
    }
  }

  /** The checks pass exactly for such a workspace. */
  lemma RecognisedExactlyWhenOurs(entry: Entry, target: string, kind: Kind, work: Name)
    ensures Recognised(entry, target, kind, work) <==> Ours(entry, target, kind, work)
  {
    hide ValidNames, HexWord, ValidWorkName, TransferName;
    WorkNameIsSpelled(work);
    if Recognised(entry, target, kind, work) {
      var names := entry.files[MARKER].content.manifest.files;
      NamesAreSpelled(kind, names);
      assert Describes(entry.files, target, kind, work, TokenOf(work), names);
    }
    if entry.Work? {
      if token, names :| Describes(entry.files, target, kind, work, token, names) {
        NamesAreSpelled(kind, names);
      }
    }
  }

  /** Entries that are transfer files, not the marker. */
  predicate HasTransferBytes(entry: Entry) {
    entry.Work? && exists n :: n in entry.files && n != MARKER
  }

  /** What an interrupted deletion can leave: fewer files, and the marker for as
      long as any file is left. */
  predicate Shrunk(before: map<Name, Node>, after: map<Name, Node>) {
    && (forall n | n in after :: n in before && after[n] == before[n])
    && (MARKER in before && MARKER !in after ==> after == map[])
  }

  /** At every point of a removal the workspace is still recognised, or empty. */
  lemma ShrunkStaysRecoverable(before: map<Name, Node>, after: map<Name, Node>, target: string, kind: Kind, work: Name)
    requires Recognised(Work(before), target, kind, work) && Shrunk(before, after)
    ensures Recognised(Work(after), target, kind, work) || after == map[]
  {}

  // ------------------------------------------------------------ state machine

  /** How far the creation of a workspace has come. */
  datatype Making = MadeDir | Opened | Locked

  /** One scratch root with the lease files locked by live processes, and what the
      current owner's process is doing. `plan` records, for every workspace the
      protocol ever made, the names it was made for; `touched` lists those that
      somebody else put something into. */
  datatype World = World(
    dir: Dir, leases: set<Name>, making: map<Name, Making>, live: set<Name>, removing: set<Name>,
    plan: map<Name, seq<Name>>, touched: set<Name>)

  datatype Event =
    | MakeDir(work: Name, names: seq<Name>)
    | OpenMarker(work: Name)
    | LockMarker(work: Name)
    | PartialMarker(work: Name, bytes: seq<byte>)
    | CompleteMarker(work: Name)
    | GiveUpMaking(work: Name)
    | WriteFile(work: Name, name: Name, bytes: seq<byte>)
    | DropLease(work: Name)
    | BeginRemove(work: Name)
    | Unlink(work: Name, name: Name)
    | UnlinkMarker(work: Name)
    | RemoveDir(work: Name)
    | StopRemove(work: Name)
    | Intrude(work: Name, name: Name, node: Node)
    | Crash

  predicate IsWork(w: World, work: Name) {
    work in w.dir && w.dir[work].Work?
  }

  predicate Enabled(w: World, target: string, kind: Kind, e: Event) {
    match e
    case MakeDir(work, names) => ValidWorkName(work) && work !in w.dir && work !in w.plan && work !in w.touched
      && ValidNames(kind, names)
    case OpenMarker(work) => work in w.making && w.making[work].MadeDir? && IsWork(w, work)
      && MARKER !in w.dir[work].files
    case LockMarker(work) => work in w.making && w.making[work].Opened?
    case PartialMarker(work, _) => work in w.making && w.making[work].Locked? && IsWork(w, work)
      && MARKER in w.dir[work].files
    case CompleteMarker(work) =>
      work in w.making && w.making[work].Locked? && IsWork(w, work) && MARKER in w.dir[work].files && work in w.plan
          && ValidWorkName(work)
    case GiveUpMaking(work) => work in w.making
    case WriteFile(work, name, _) =>
      work in w.live && IsWork(w, work) && work in w.plan && name in w.plan[work]
      && (name in w.dir[work].files ==> w.dir[work].files[name].Regular?)
    case DropLease(work) => work in w.live
    case BeginRemove(work) =>
      work in w.dir && work !in w.leases && work !in w.live && work !in w.making
          && Recognised(w.dir[work], target, kind, work)
    case Unlink(work, name) =>
      work in w.removing && IsWork(w, work) && name in w.dir[work].files && Records(w.dir[work].files, name)
    // The entries were listed before; whatever arrived since is not deleted.
    case UnlinkMarker(work) =>
      work in w.removing && IsWork(w, work) && MARKER in w.dir[work].files
      && (work !in w.touched ==> w.dir[work].files.Keys == {MARKER})
    case RemoveDir(work) => work in w.removing && IsWork(w, work) && w.dir[work].files == map[]
    case StopRemove(work) => work in w.removing
    case Intrude(work, name, node) =>
      IsWork(w, work) && name !in w.dir[work].files && name != MARKER
    case Crash => true
  }

  /** The marker is present and names this transfer file. */
  predicate Records(files: map<Name, Node>, name: Name) {
    && name != MARKER && MARKER in files && files[MARKER].Regular? && files[MARKER].content.Complete?
    && name in files[MARKER].content.manifest.files
  }

  function WithFile(w: World, work: Name, name: Name, node: Node): World
    requires IsWork(w, work)
  {
    w.(dir := w.dir[work := Work(w.dir[work].files[name := node])])
  }

  function WithoutFile(w: World, work: Name, name: Name): World
    requires IsWork(w, work)
  {
    w.(dir := w.dir[work := Work(w.dir[work].files - {name})])
  }

  function Apply(w: World, target: string, kind: Kind, e: Event): World
    requires Enabled(w, target, kind, e)
  {
    match e
    case MakeDir(work, names) =>
      w.(dir := w.dir[work := Work(map[])], making := w.making[work := MadeDir], plan := w.plan[work := names])
    case OpenMarker(work) => WithFile(w, work, MARKER, Regular(Bytes([]))).(making := w.making[work := Opened])
    case LockMarker(work) => w.(leases := w.leases + {work}, making := w.making[work := Locked])
    case PartialMarker(work, bytes) => WithFile(w, work, MARKER, Regular(Bytes(bytes)))
    case CompleteMarker(work) =>
      WithFile(w, work, MARKER, Regular(Complete(Manifest(target, kind, TokenOf(work), w.plan[work]))))
        .(making := w.making - {work}, live := w.live + {work})
    case GiveUpMaking(work) => w.(making := w.making - {work}, leases := w.leases - {work})
    case WriteFile(work, name, bytes) => WithFile(w, work, name, Regular(Bytes(bytes)))
    case DropLease(work) => w.(live := w.live - {work}, leases := w.leases - {work})
    case BeginRemove(work) => w.(removing := w.removing + {work})
    case Unlink(work, name) => WithoutFile(w, work, name)
    case UnlinkMarker(work) => WithoutFile(w, work, MARKER)
    case RemoveDir(work) => w.(dir := w.dir - {work}, removing := w.removing - {work})
    case StopRemove(work) => w.(removing := w.removing - {work})
    case Intrude(work, name, node) => WithFile(w, work, name, node).(touched := w.touched + {work})
    // The kernel frees every lease; the disk stays as it is.
    case Crash => World(w.dir, {}, map[], {}, {}, w.plan, w.touched)
  }

  // ---------------------------------------------------------------- invariant

  predicate MarkerComplete(w: World, target: string, kind: Kind, work: Name)
    requires IsWork(w, work)
  {
    && work in w.plan && MARKER in w.dir[work].files && ValidWorkName(work)
    && w.dir[work].files[MARKER] == Regular(Complete(Manifest(target, kind, TokenOf(work), w.plan[work])))
  }

  /** An untouched workspace contains recorded files only, and no transfer file
      without the complete marker. */
  predicate WorkOk(w: World, target: string, kind: Kind, work: Name) {
    work in w.plan && IsWork(w, work) && work !in w.touched ==>
      && ValidWorkName(work) && ValidNames(kind, w.plan[work]) && OnlyRecorded(w.dir[work].files, w.plan[work])
      && (HasTransferBytes(w.dir[work]) ==> MarkerComplete(w, target, kind, work))
      && (work in w.making ==> !HasTransferBytes(w.dir[work]))
      && (work in w.live ==> MarkerComplete(w, target, kind, work))
  }

  predicate StageOk(w: World) {
    && w.making.Keys !! w.live && w.removing !! w.live && w.removing !! w.making.Keys
    && w.removing <= w.dir.Keys
    && w.live <= w.leases && w.making.Keys + w.live <= w.plan.Keys
    && (forall x | x in w.making && w.making[x].Locked? :: x in w.leases)
  }

  predicate Inv(w: World, target: string, kind: Kind) {
    && StageOk(w) && forall work | work in w.plan :: WorkOk(w, target, kind, work)
  }

  lemma StepKeepsStage(w: World, target: string, kind: Kind, e: Event)
    requires StageOk(w) && Enabled(w, target, kind, e)
    ensures StageOk(Apply(w, target, kind, e))
  {
    hide Recognised, ValidNames, ValidWorkName, OwnMarker;
  }

  /** A step on one workspace leaves every other one as it was. */
  lemma OthersKept(w: World, target: string, kind: Kind, e: Event, work: Name)
    requires Enabled(w, target, kind, e) && (e.Crash? || e.work != work) && WorkOk(w, target, kind, work)
    ensures WorkOk(Apply(w, target, kind, e), target, kind, work)
  {
    hide Recognised, ValidNames, ValidWorkName, OwnMarker;
  }

  lemma MakeKeepsWork(w: World, target: string, kind: Kind, e: Event)
    requires StageOk(w) && Enabled(w, target, kind, e) && !e.Crash? && WorkOk(w, target, kind, e.work)
    requires e.MakeDir? || e.OpenMarker? || e.LockMarker? || e.PartialMarker? || e.CompleteMarker? || e.GiveUpMaking?
    ensures WorkOk(Apply(w, target, kind, e), target, kind, e.work)
  {
    hide Recognised, OwnMarker;
  }

  lemma UseKeepsWork(w: World, target: string, kind: Kind, e: Event)
    requires StageOk(w) && Enabled(w, target, kind, e) && !e.Crash? && WorkOk(w, target, kind, e.work)
    requires !(e.MakeDir? || e.OpenMarker? || e.LockMarker? || e.PartialMarker? || e.CompleteMarker? || e.GiveUpMaking?)
    ensures WorkOk(Apply(w, target, kind, e), target, kind, e.work)
  {
    hide Recognised, OwnMarker;
    if e.WriteFile? && e.work !in w.touched {
      MarkerIsNoTransferName(kind, w.plan[e.work]);
    }
  }

  lemma StepKeepsInv(w: World, target: string, kind: Kind, e: Event)
    requires Inv(w, target, kind) && Enabled(w, target, kind, e)
    ensures Inv(Apply(w, target, kind, e), target, kind)
  {
    var w' := Apply(w, target, kind, e);
    StepKeepsStage(w, target, kind, e);
    forall work | work in w'.plan ensures WorkOk(w', target, kind, work) {
      assert WorkOk(w, target, kind, work);
      if e.Crash? || e.work != work {
        OthersKept(w, target, kind, e, work);
      } else if e.MakeDir? || e.OpenMarker? || e.LockMarker?
                || e.PartialMarker? || e.CompleteMarker? || e.GiveUpMaking? {
        MakeKeepsWork(w, target, kind, e);
      } else {
        UseKeepsWork(w, target, kind, e);
      }
    }
  }

  predicate Runs(w: World, target: string, kind: Kind, es: seq<Event>)
    decreases es
  {
    es == [] || (Enabled(w, target, kind, es[0]) && Runs(Apply(w, target, kind, es[0]), target, kind, es[1..]))
  }

  function After(w: World, target: string, kind: Kind, es: seq<Event>): World
    requires Runs(w, target, kind, es)
    decreases es
  {
    if es == [] then w else After(Apply(w, target, kind, es[0]), target, kind, es[1..])
  }

  /** The root as it was before the protocol ever ran; what is in it belongs to others. */
  function Initial(dir: Dir): World {
    World(dir, {}, map[], {}, {}, map[], dir.Keys)
  }

  lemma {:induction false} RunKeepsInv(w: World, target: string, kind: Kind, es: seq<Event>)
    requires Inv(w, target, kind) && Runs(w, target, kind, es)
    ensures Inv(After(w, target, kind, es), target, kind)
    decreases es
  {
    if es != [] {
      StepKeepsInv(w, target, kind, es[0]);
      RunKeepsInv(Apply(w, target, kind, es[0]), target, kind, es[1..]);
    }
  }

  // ----------------------------------------------------------------- theorems

  /** Wherever the processes stop, an untouched workspace that holds any transfer
      file is recognised, so the next owner can reclaim it; the others hold none. */
  lemma AbandonedBytesAreRecognised(dir: Dir, target: string, kind: Kind, es: seq<Event>, work: Name)
    requires Runs(Initial(dir), target, kind, es)
    requires var w := After(Initial(dir), target, kind, es);
             work in w.plan && IsWork(w, work) && work !in w.touched
    ensures var w := After(Initial(dir), target, kind, es);
            HasTransferBytes(w.dir[work]) ==> Recognised(w.dir[work], target, kind, work)
  {
    RunKeepsInv(Initial(dir), target, kind, es);
    var w := After(Initial(dir), target, kind, es);
    assert WorkOk(w, target, kind, work);
  }

  /** While a writer uses a workspace its lease is held, so nobody may remove it. */
  lemma LiveWorkIsProtected(dir: Dir, target: string, kind: Kind, es: seq<Event>, work: Name)
    requires Runs(Initial(dir), target, kind, es) && work in After(Initial(dir), target, kind, es).live
    ensures var w := After(Initial(dir), target, kind, es);
            work in w.leases && work !in w.removing && !Enabled(w, target, kind, BeginRemove(work))
  {
    RunKeepsInv(Initial(dir), target, kind, es);
  }

  /** No step of the protocol changes an entry it neither made nor recognised, or
      deletes a file that the marker beside it does not record. */
  lemma StrangersAreKept(dir: Dir, target: string, kind: Kind, es: seq<Event>, e: Event, work: Name, name: Name)
    requires Runs(Initial(dir), target, kind, es) && Enabled(After(Initial(dir), target, kind, es), target, kind, e)
    requires !e.Intrude? && work in After(Initial(dir), target, kind, es).dir
    ensures var w := After(Initial(dir), target, kind, es);
            var w' := Apply(w, target, kind, e);
            && (work !in w.plan && work !in w.removing ==> work in w'.dir && w'.dir[work] == w.dir[work])
            && (IsWork(w, work) && name in w.dir[work].files && name != MARKER && !Records(w.dir[work].files, name)
                && (work in w.plan ==> name !in w.plan[work]) ==>
                  IsWork(w', work) && name in w'.dir[work].files && w'.dir[work].files[name] == w.dir[work].files[name])
  {
    RunKeepsInv(Initial(dir), target, kind, es);
    var w := After(Initial(dir), target, kind, es);
    StepSparesEntry(w, target, kind, e, work);
    if IsWork(w, work) && name in w.dir[work].files && name != MARKER && !Records(w.dir[work].files, name)
       && (work in w.plan ==> name !in w.plan[work]) {
      StepSparesFile(w, target, kind, e, work, name);
    }
  }

  lemma StepSparesEntry(w: World, target: string, kind: Kind, e: Event, work: Name)
    requires StageOk(w) && Enabled(w, target, kind, e) && !e.Intrude? && work in w.dir
    ensures var w' := Apply(w, target, kind, e);
            work !in w.plan && work !in w.removing ==> work in w'.dir && w'.dir[work] == w.dir[work]
  {
    hide Recognised, ValidNames, ValidWorkName, OwnMarker, Records;
  }

  lemma StepSparesFile(w: World, target: string, kind: Kind, e: Event, work: Name, name: Name)
    requires StageOk(w) && Enabled(w, target, kind, e) && !e.Intrude? && IsWork(w, work)
    requires name in w.dir[work].files && name != MARKER && !Records(w.dir[work].files, name)
    requires work in w.plan ==> name !in w.plan[work]
    ensures var w' := Apply(w, target, kind, e);
            IsWork(w', work) && name in w'.dir[work].files && w'.dir[work].files[name] == w.dir[work].files[name]
  {
    hide Recognised, ValidNames, ValidWorkName, OwnMarker, Records, StageOk;
  }

  /** A new workspace can always be brought into use, in four steps. */
  lemma NewWorkGoesLive(w: World, target: string, kind: Kind, work: Name, names: seq<Name>)
    requires work !in w.dir && work !in w.plan && work !in w.touched
    requires (exists token :: work == "work_" + token && HexWord(token, 32)) && Fits(kind, names)
    ensures Enabled(w, target, kind, MakeDir(work, names))
    ensures var w1 := Apply(w, target, kind, MakeDir(work, names));
            Enabled(w1, target, kind, OpenMarker(work)) &&
            var w2 := Apply(w1, target, kind, OpenMarker(work));
            Enabled(w2, target, kind, LockMarker(work)) &&
            var w3 := Apply(w2, target, kind, LockMarker(work));
            Enabled(w3, target, kind, CompleteMarker(work)) &&
            var w4 := Apply(w3, target, kind, CompleteMarker(work));
            work in w4.live && work in w4.leases
  {
    WorkNameIsSpelled(work);
    NamesAreSpelled(kind, names);
    hide ValidWorkName, ValidNames, Fits, HexWord, AllHex, Recognised, Records;
  }
}
