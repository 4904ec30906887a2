/** The shared capacity registry (capacity.py): claims of many processes on one
    free-space sample, with reaping of dead claims and epoch restarts. */
module CapacityRegistry {
  import opened Collections

  type Token = nat

  /** One epoch: its free-space sample, bytes charged for good, and open claims. */
  datatype Registry = Registry(free: int, spent: int, claims: map<Token, int>)

  function Fresh(free: int): Registry { Registry(free, 0, map[]) }

  /** What `_load` accepts from the file. */
  predicate WellFormed(r: Registry) {
    r.free >= 0 && r.spent >= 0 && forall t | t in r.claims :: r.claims[t] >= 0
  }

  function Charge(r: Registry, t: Token): int {
    if t in r.claims then r.claims[t] else 0
  }

  /** Everything charged against the epoch's sample. */
  ghost function Charged(r: Registry): int { r.spent + Sum(r.claims) }

  ghost predicate Within(r: Registry) {
    WellFormed(r) && Charged(r) <= r.free
  }

  /** Claims whose lease nobody holds: their owner closed without retiring them or died. */
  function Dead(r: Registry, self: Token, live: set<Token>): set<Token> {
    r.claims.Keys - live - {self}
  }

  /** Dead claims become spent bytes. */
  ghost function Reap(r: Registry, self: Token, live: set<Token>): Registry {
    var left := r.claims - Dead(r, self, live);
    Registry(r.free, r.spent + Sum(r.claims) - Sum(left), left)
  }

  /** `_load`: the file, or a new epoch when there is none or no claim is left;
      `None` when the file is not a registry. */
  ghost function Load(saved: Option<Registry>, self: Token, live: set<Token>, free: int): Option<Registry> {
    var r := if saved.Some? then saved.value else Fresh(free);
    if saved.Some? && !WellFormed(r) then None
    else if Reap(r, self, live).claims == map[] then Some(Fresh(free))
    else Some(Reap(r, self, live))
  }

  ghost function Available(r: Registry, free: int): int {
    Min(free, r.free - Charged(r))
  }

  datatype Admission = Unreadable | Changed | NoSpace | Granted(registry: Registry, amount: int)

  /** `add` up to the write of the file, once the file is loaded. */
  ghost function AdmitLoaded(r: Registry, self: Token, funded: int, minimum: int, preferred: int,
      free: int): Admission {
    if Charge(r, self) != funded then Changed
    else if Available(r, free) < minimum then NoSpace
    else
      var amount := Min(Available(r, free), preferred);
      Granted(r.(claims := r.claims[self := funded + amount]), amount)
  }

  ghost function Admit(saved: Option<Registry>, self: Token, live: set<Token>, funded: int,
                       minimum: int, preferred: int, free: int): Admission
  {
    var loaded := Load(saved, self, live, free);
    if loaded.None? then Unreadable else AdmitLoaded(loaded.value, self, funded, minimum, preferred, free)
  }

  /** `close` up to the write of the file, for a claim that was funded. */
  ghost function RetireLoaded(r: Registry, self: Token, funded: int, retained: int): Option<Registry> {
    if self !in r.claims || r.claims[self] != funded || !(0 <= retained <= funded) then None
    else Some(Registry(r.free, r.spent + retained, r.claims - {self}))
  }

  ghost function Retire(saved: Option<Registry>, self: Token, live: set<Token>, funded: int,
      retained: int): Option<Registry> {
    var loaded := Load(saved, self, live, 0);
    if loaded.None? then None else RetireLoaded(loaded.value, self, funded, retained)
  }

  // -------------------------------------------------------- single operations

  /** Reaping moves charges, it never changes their total, and it spares every live claim. */
  lemma ReapConserves(r: Registry, self: Token, live: set<Token>)
    requires WellFormed(r)
    ensures Charged(Reap(r, self, live)) == Charged(r)
    ensures WellFormed(Reap(r, self, live))
    ensures forall t | t in live || t == self :: Charge(Reap(r, self, live), t) == Charge(r, t)
  {
    SumMonotone(r.claims, Dead(r, self, live));
  }

  /** A registry that was within its sample still is after loading; live claims are kept. */
  lemma LoadKeepsWithin(saved: Option<Registry>, self: Token, live: set<Token>, free: int)
    requires free >= 0 && (saved.Some? ==> Within(saved.value))
    ensures var loaded := Load(saved, self, live, free);
            && loaded.Some? && Within(loaded.value)
            && forall t | t in live || t == self ::
                 Charge(loaded.value, t) == Recorded(saved, t)
  {
    var r := if saved.Some? then saved.value else Fresh(free);
    ReapConserves(r, self, live);
    var reaped := Reap(r, self, live);
    assert reaped.claims == map[] ==> forall t :: Charge(reaped, t) == 0;
  }

  lemma GrantKeepsWithin(r: Registry, self: Token, funded: int, minimum: int, preferred: int, free: int)
    requires Within(r) && free >= 0 && 0 <= minimum <= preferred
    ensures var a := AdmitLoaded(r, self, funded, minimum, preferred, free);
            a.Granted? ==>
              && Within(a.registry) && minimum <= a.amount <= preferred && a.amount <= free
              && Charge(a.registry, self) == funded + a.amount
              && forall t | t != self :: Charge(a.registry, t) == Charge(r, t)
  {
    var a := AdmitLoaded(r, self, funded, minimum, preferred, free);
    if a.Granted? {
      SumUpdate(r.claims, self, funded + a.amount);
    }
  }

  /** A grant keeps the registry within its sample and changes one claim only.
      It is at least what was demanded and at most what is free now. */
  lemma AdmitKeepsWithin(saved: Option<Registry>, self: Token, live: set<Token>, funded: int,
                         minimum: int, preferred: int, free: int)
    requires free >= 0 && 0 <= minimum <= preferred
    requires saved.Some? ==> Within(saved.value)
    ensures var a := Admit(saved, self, live, funded, minimum, preferred, free);
            a.Granted? ==>
              && Within(a.registry) && minimum <= a.amount <= preferred && a.amount <= free
              && Charge(a.registry, self) == funded + a.amount
              && forall t | t in live && t != self :: Charge(a.registry, t) == Recorded(saved, t)
  {
    LoadKeepsWithin(saved, self, live, free);
    GrantKeepsWithin(Load(saved, self, live, free).value, self, funded, minimum, preferred, free);
  }

  /** What the file says a token was granted. */
  function Recorded(saved: Option<Registry>, t: Token): int {
    if saved.Some? then Charge(saved.value, t) else 0
  }

  /** What one more request can be given: what is free now, and no more than the
      epoch's sample leaves after every charge - unless no claim of the epoch is live,
      which starts a new one. */
  ghost function Room(saved: Option<Registry>, self: Token, live: set<Token>, free: int): int {
    if EpochLasts(saved, self, live)
    then Min(free, saved.value.free - saved.value.spent - Sum(saved.value.claims))
    else free
  }

  ghost predicate EpochLasts(saved: Option<Registry>, self: Token, live: set<Token>) {
    saved.Some? && exists t :: t in saved.value.claims && (t == self || t in live)
  }

  /** The file can be read, and agrees about what this claim was funded with. */
  predicate Agrees(saved: Option<Registry>, self: Token, funded: int) {
    (saved.Some? ==> WellFormed(saved.value)) && Recorded(saved, self) == funded
  }

  /** A request is refused exactly when there is less room than it must have, and is
      otherwise given all it would like to have or all the room. */
  lemma AdmitsExactlyWhenRoom(saved: Option<Registry>, self: Token, live: set<Token>, funded: int,
                              minimum: int, preferred: int, free: int)
    ensures var a, room := Admit(saved, self, live, funded, minimum, preferred, free), Room(saved, self, live, free);
            && (a.Unreadable? || a.Changed? <==> !Agrees(saved, self, funded))
            && (a.NoSpace? <==> Agrees(saved, self, funded) && room < minimum)
            && (a.Granted? ==> a.amount == if room < preferred then room else preferred)
  {
    if saved.Some? && !WellFormed(saved.value) {
      return;
    }
    LoadedRoom(saved, self, live, free);
    LoadedIsAdmitted(Load(saved, self, live, free).value, self, funded, minimum, preferred, free);
    hide Load, Room, Available, AdmitLoaded;
  }

  lemma LoadedIsAdmitted(r: Registry, self: Token, funded: int, minimum: int, preferred: int, free: int)
    ensures var a, room := AdmitLoaded(r, self, funded, minimum, preferred, free), Available(r, free);
            && !a.Unreadable? && (a.Changed? <==> Charge(r, self) != funded)
            && (a.NoSpace? <==> Charge(r, self) == funded && room < minimum)
            && (a.Granted? ==> a.amount == if room < preferred then room else preferred)
  {
    hide Available;
  }

  lemma LoadedRoom(saved: Option<Registry>, self: Token, live: set<Token>, free: int)
    requires saved.Some? ==> WellFormed(saved.value)
    ensures var loaded := Load(saved, self, live, free);
            && loaded.Some? && Charge(loaded.value, self) == Recorded(saved, self)
            && Available(loaded.value, free) == Room(saved, self, live, free)
  {
    LoadedSample(saved, self, live, free);
    if saved.Some? {
      ReapConserves(saved.value, self, live);
    }
  }

  /** A grant is charged in full to the epoch, whose sample stays what it was when the
      epoch began. */
  lemma GrantIsCharged(saved: Option<Registry>, self: Token, live: set<Token>, funded: int,
                       minimum: int, preferred: int, free: int)
    ensures var a := Admit(saved, self, live, funded, minimum, preferred, free);
            a.Granted? ==>
              if EpochLasts(saved, self, live)
              then a.registry.free == saved.value.free && Charged(a.registry) == Charged(saved.value) + a.amount
              else a.registry.free == free && Charged(a.registry) == a.amount
  {
    var a := Admit(saved, self, live, funded, minimum, preferred, free);
    if a.Granted? {
      var r := Load(saved, self, live, free).value;
      LoadedRoom(saved, self, live, free);
      LoadedSample(saved, self, live, free);
      SumUpdate(r.claims, self, funded + a.amount);
      hide Sum, Load, EpochLasts;
    }
  }

  lemma LoadedSample(saved: Option<Registry>, self: Token, live: set<Token>, free: int)
    requires saved.Some? ==> WellFormed(saved.value)
    ensures var loaded := Load(saved, self, live, free);
            && loaded.Some?
            && if EpochLasts(saved, self, live)
               then loaded.value.free == saved.value.free && Charged(loaded.value) == Charged(saved.value)
               else loaded.value == Fresh(free)
  {
    if saved.Some? {
      var r := saved.value;
      ReapConserves(r, self, live);
      var left := Reap(r, self, live).claims;
      assert forall t | t in r.claims && (t == self || t in live) :: t in left;
      assert left != map[] ==> exists t :: t in left;
    }
  }

  /** Retiring a claim gives back exactly what it did not retain. */
  lemma RetireKeepsWithin(saved: Option<Registry>, self: Token, live: set<Token>, funded: int, retained: int)
    requires saved.Some? ==> Within(saved.value)
    ensures var r := Retire(saved, self, live, funded, retained);
            r.Some? ==>
              && saved.Some? && Within(r.value) && r.value.free == saved.value.free
              && Charged(r.value) == Charged(saved.value) - (funded - retained)
              && Charge(r.value, self) == 0
              && forall t | t in live && t != self :: Charge(r.value, t) == Charge(saved.value, t)
  {
    LoadKeepsWithin(saved, self, live, 0);
    if Retire(saved, self, live, funded, retained).Some? {
      var r := Load(saved, self, live, 0).value;
      assert self in r.claims;
      ReapConserves(saved.value, self, live);
      SumRemove(r.claims, self);
    }
  }

  // ------------------------------------------------------------- whole system

  /** The file, and what every live process believes it was granted. */
  datatype World = World(saved: Option<Registry>, procs: map<Token, int>, used: set<Token>)

  datatype Event =
    | Open(token: Token)
    | Add(token: Token, minimum: int, preferred: int, free: int, saves: bool, survives: bool)
    | Close(token: Token, retained: int, saves: bool)
    | Crash(token: Token)

  const INITIAL: World := World(None, map[], {})

  ghost predicate Enabled(w: World, e: Event) {
    match e
    case Open(t) => t !in w.used
    case Add(t, minimum, preferred, free, _, _) => t in w.procs && free >= 0 && 0 <= minimum <= preferred
    case _ => e.token in w.procs
  }

  /** One transaction under the registry's mutex. A process can die before or
      after the file is replaced; a failed write leaves the file alone. */
  ghost function Apply(w: World, e: Event): World
    requires Enabled(w, e)
  {
    match e
    case Open(t) => World(w.saved, w.procs[t := 0], w.used + {t})
    case Add(t, minimum, preferred, free, saves, survives) =>
      AddOutcome(w, t, Admit(w.saved, t, w.procs.Keys, w.procs[t], minimum, preferred, free), saves, survives)
    case Close(t, retained, saves) =>
      var r := Retire(w.saved, t, w.procs.Keys, w.procs[t], retained);
      World(if w.procs[t] != 0 && r.Some? && saves then r else w.saved, w.procs - {t}, w.used)
    case Crash(t) => w.(procs := w.procs - {t})
  }

  ghost function AddOutcome(w: World, t: Token, a: Admission, saves: bool, survives: bool): World
    requires t in w.procs
  {
    if !a.Granted? || !saves then (if survives then w else w.(procs := w.procs - {t}))
    else World(Some(a.registry), if survives then w.procs[t := w.procs[t] + a.amount] else w.procs - {t}, w.used)
  }

  ghost predicate Inv(w: World) {
    && (w.saved.Some? ==> Within(w.saved.value) && w.saved.value.claims.Keys <= w.used)
    && w.procs.Keys <= w.used
    && forall t | t in w.procs :: w.procs[t] >= 0 && w.procs[t] == Recorded(w.saved, t)
  }

  lemma LoadKeepsUsed(saved: Option<Registry>, self: Token, live: set<Token>, free: int)
    ensures var loaded := Load(saved, self, live, free);
            loaded.Some? ==> loaded.value.claims.Keys <= if saved.Some? then saved.value.claims.Keys else {}
  {}

  ghost function AdmitFor(w: World, e: Event): Admission
    requires e.Add? && e.token in w.procs
  {
    Admit(w.saved, e.token, w.procs.Keys, w.procs[e.token], e.minimum, e.preferred, e.free)
  }

  /** What a grant means for every process of the system. */
  lemma AdmitForWorld(w: World, e: Event)
    requires Inv(w) && Enabled(w, e) && e.Add? && AdmitFor(w, e).Granted?
    ensures GoodGrant(w, e.token, AdmitFor(w, e))
  {
    hide Sum, Load, Reap, Within;
    AdmitKeepsWithin(w.saved, e.token, w.procs.Keys, w.procs[e.token], e.minimum, e.preferred, e.free);
    LoadKeepsUsed(w.saved, e.token, w.procs.Keys, e.free);
  }

  ghost predicate GoodGrant(w: World, t: Token, a: Admission)
    requires t in w.procs && a.Granted?
  {
    && Within(a.registry) && a.registry.claims.Keys <= w.used && a.amount >= 0
    && Charge(a.registry, t) == w.procs[t] + a.amount
    && forall u | u in w.procs && u != t :: Charge(a.registry, u) == w.procs[u]
  }

  lemma AddOutcomeKeepsInv(w: World, t: Token, a: Admission, saves: bool, survives: bool)
    requires Inv(w) && t in w.procs && (a.Granted? ==> GoodGrant(w, t, a))
    ensures Inv(AddOutcome(w, t, a, saves, survives))
  {}

  lemma AddKeepsInv(w: World, e: Event)
    requires Inv(w) && Enabled(w, e) && e.Add?
    ensures Inv(Apply(w, e))
  {
    if AdmitFor(w, e).Granted? {
      AdmitForWorld(w, e);
    }
    AddOutcomeKeepsInv(w, e.token, AdmitFor(w, e), e.saves, e.survives);
  }

  lemma CloseKeepsInv(w: World, e: Event)
    requires Inv(w) && Enabled(w, e) && e.Close?
    ensures Inv(Apply(w, e))
  {
    hide Sum, Reap, Charged, Load;
    RetireKeepsWithin(w.saved, e.token, w.procs.Keys, w.procs[e.token], e.retained);
    LoadKeepsUsed(w.saved, e.token, w.procs.Keys, 0);
  }

  lemma StepKeepsInv(w: World, e: Event)
    requires Inv(w) && Enabled(w, e)
    ensures Inv(Apply(w, e))
  {
    match e
    case Open(t) =>
    case Add(_, _, _, _, _, _) => AddKeepsInv(w, e);
    case Close(_, _, _) => CloseKeepsInv(w, e);
    case Crash(t) =>
  }

  ghost predicate Runs(w: World, es: seq<Event>)
    decreases es
  {
    es == [] || (Enabled(w, es[0]) && Runs(Apply(w, es[0]), es[1..]))
  }

  ghost function After(w: World, es: seq<Event>): World
    requires Runs(w, es)
    decreases es
  {
    if es == [] then w else After(Apply(w, es[0]), es[1..])
  }

  /** Every file ever written in any run is within its sample, and agrees with
      what each live process believes. */
  lemma {:induction false} RunKeepsInv(w: World, es: seq<Event>)
    requires Inv(w) && Runs(w, es)
    ensures Inv(After(w, es))
    decreases es
  {
    if es != [] {
      StepKeepsInv(w, es[0]);
      RunKeepsInv(Apply(w, es[0]), es[1..]);
    }
  }

  /** All live grants together fit in one free-space sample, next to what earlier
      claims of the epoch left behind. */
  lemma LiveGrantsFit(es: seq<Event>)
    requires Runs(INITIAL, es) && After(INITIAL, es).saved.Some?
    ensures var w := After(INITIAL, es);
            Sum(w.procs) <= w.saved.value.free - w.saved.value.spent
  {
    RunKeepsInv(INITIAL, es);
    var w := After(INITIAL, es);
    SumDominated(w.procs, w.saved.value.claims);
  }

  /** In no run does a live process find its own claim changed, an unreadable
      file, or a retirement refused for an amount it was granted. */
  lemma OwnClaimIsNeverDisturbed(es: seq<Event>, t: Token, minimum: int, preferred: int, free: int, retained: int)
    requires Runs(INITIAL, es) && t in After(INITIAL, es).procs && free >= 0
    ensures var w := After(INITIAL, es);
            var a := Admit(w.saved, t, w.procs.Keys, w.procs[t], minimum, preferred, free);
            && !a.Unreadable? && !a.Changed?
            && (w.procs[t] != 0 && 0 <= retained <= w.procs[t] ==>
                  Retire(w.saved, t, w.procs.Keys, w.procs[t], retained).Some?)
  {
    RunKeepsInv(INITIAL, es);
    var w := After(INITIAL, es);
    AddFindsOwnClaim(w, t, minimum, preferred, free);
    LoadFindsOwnClaim(w, t, 0);
  }

  lemma AddFindsOwnClaim(w: World, t: Token, minimum: int, preferred: int, free: int)
    requires Inv(w) && t in w.procs && free >= 0
    ensures var a := Admit(w.saved, t, w.procs.Keys, w.procs[t], minimum, preferred, free);
            !a.Unreadable? && !a.Changed?
  {
    LoadFindsOwnClaim(w, t, free);
    UnchangedIsAdmitted(Load(w.saved, t, w.procs.Keys, free).value, t, w.procs[t], minimum, preferred, free);
  }

  lemma UnchangedIsAdmitted(r: Registry, t: Token, funded: int, minimum: int, preferred: int, free: int)
    requires Charge(r, t) == funded
    ensures var a := AdmitLoaded(r, t, funded, minimum, preferred, free);
            !a.Unreadable? && !a.Changed?
  {}

  lemma LoadFindsOwnClaim(w: World, t: Token, free: int)
    requires Inv(w) && t in w.procs && free >= 0
    ensures var loaded := Load(w.saved, t, w.procs.Keys, free);
            && loaded.Some? && Charge(loaded.value, t) == w.procs[t]
            && (w.procs[t] != 0 ==> t in loaded.value.claims)
  {
    LoadKeepsWithin(w.saved, t, w.procs.Keys, free);
  }

  /** A new epoch begins only when no live process has been granted anything. */
  lemma EpochRestartsWhenIdle(es: seq<Event>, t: Token, free: int)
    requires Runs(INITIAL, es) && t in After(INITIAL, es).procs && free >= 0
    requires var w := After(INITIAL, es);
             Load(w.saved, t, w.procs.Keys, free) == Some(Fresh(free))
    ensures forall u | u in After(INITIAL, es).procs :: After(INITIAL, es).procs[u] == 0
  {
    RunKeepsInv(INITIAL, es);
    var w := After(INITIAL, es);
    LoadKeepsWithin(w.saved, t, w.procs.Keys, free);
    forall u | u in w.procs ensures w.procs[u] == 0 {
      assert Charge(Fresh(free), u) == 0;
    }
  }
}
