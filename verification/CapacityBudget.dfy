/** One process's claim on the registry and the batch budget on top of it (capacity.py). */
module CapacityBudgets {
  import opened Collections
  import opened CapacityRegistry

  /** The registry file and the lease files locked by live processes. A reliable
      disk refuses no write of the file. */
  class RegistryFile {
    const reliable: bool
    var saved: Option<Registry>
    var leases: set<Token>

    constructor (reliable: bool)
      ensures saved == None && leases == {} && this.reliable == reliable
    {
      this.reliable, saved, leases := reliable, None, {};
    }

    /** `_save`: replaced as a whole or not at all. */
    method Save(r: Registry) returns (ok: bool)
      modifies this`saved
      ensures saved == if ok then Some(r) else old(saved)
      ensures reliable ==> ok
    {
      ok := *;
      ok := ok || reliable;
      if ok {
        saved := Some(r);
      }
    }
  }

  datatype Reply = Funded(amount: int) | Refused | Corrupt | WriteFailed

  class CapacityClaim {
    const file: RegistryFile
    const token: Token
    var funded: int

    constructor (file: RegistryFile, token: Token)
      requires token !in file.leases
      modifies file`leases
      ensures this.file == file && this.token == token && funded == 0
      ensures file.leases == old(file.leases) + {token}
    {
      this.file, this.token, this.funded := file, token, 0;
      new;
      file.leases := file.leases + {token};
    }

    /** `_load`: the loop that moves every dead claim to `spent`. */
    method LoadRegistry(free: int) returns (loaded: Option<Registry>)
      ensures loaded == Load(file.saved, token, file.leases, free)
    {
      hide Sum;
      var data := if file.saved.Some? then file.saved.value else Fresh(free);
      if file.saved.Some? && (data.free < 0 || data.spent < 0) {
        return None;
      }
      ghost var before := data;
      var todo := data.claims.Keys;
      while todo != {}
        invariant todo <= data.claims.Keys <= before.claims.Keys && data.free == before.free
        invariant forall t | t in data.claims :: data.claims[t] == before.claims[t]
        invariant forall t | t in before.claims && t !in data.claims :: t in Dead(before, token, file.leases)
        invariant forall t | t in data.claims && t !in todo :: t !in Dead(before, token, file.leases)
        invariant forall t | t in before.claims && t !in todo :: before.claims[t] >= 0
        invariant Charged(data) == Charged(before)
        decreases todo
      {
        var t :| t in todo;
        todo := todo - {t};
        if data.claims[t] < 0 {
          return None;
        }
        if t != token && t !in file.leases {
          SumRemove(data.claims, t);
          data := data.(spent := data.spent + data.claims[t], claims := data.claims - {t});
        }
      }
      assert data.claims == Reap(before, token, file.leases).claims;
      if data.claims == map[] {
        return Some(Fresh(free));
      }
      return Some(data);
    }

    /** `sum(data["claims"].values())` */
    method SumClaims(claims: map<Token, int>) returns (sum: int)
      ensures sum == Sum(claims)
    {
      sum := 0;
      var rest := claims;
      while rest.Keys != {}
        invariant sum + Sum(rest) == Sum(claims)
        decreases rest.Keys
      {
        var t :| t in rest.Keys;
        SumRemove(rest, t);
        sum := sum + rest[t];
        rest := rest - {t};
      }
      assert rest == map[];
    }

    method Add(minimum: int, preferred: int, free: int) returns (reply: Reply)
      modifies this, file`saved
      ensures var a := Admit(old(file.saved), token, file.leases, old(funded), minimum, preferred, free);
              && (reply.Funded? ==> a.Granted? && reply.amount == a.amount && file.saved == Some(a.registry))
              && (reply.Refused? <==> a.NoSpace?) && (reply.Corrupt? <==> a.Unreadable? || a.Changed?)
      // refused exactly for want of room, and otherwise given all that is wanted or all the room
      ensures var room := Room(old(file.saved), token, file.leases, free);
              && (reply.Corrupt? <==> !Agrees(old(file.saved), token, old(funded)))
              && (reply.Refused? <==> Agrees(old(file.saved), token, old(funded)) && room < minimum)
              && (reply.Funded? ==> reply.amount == Min(room, preferred)) && (reply.WriteFailed? ==> !file.reliable)
      ensures !reply.Funded? ==> file.saved == old(file.saved)
      ensures funded == old(funded) + if reply.Funded? then reply.amount else 0
    {
      hide Sum, Room, Agrees, Load;
      AdmitsExactlyWhenRoom(file.saved, token, file.leases, funded, minimum, preferred, free);
      var loaded := LoadRegistry(free);
      if loaded.None? {
        return Corrupt;
      }
      var data := loaded.value;
      if Charge(data, token) != funded {
        return Corrupt;
      }
      var sum := SumClaims(data.claims);
      var available := Min(free, data.free - data.spent - sum);
      if available < minimum {
        return Refused;
      }
      var amount := Min(available, preferred);
      var ok := file.Save(data.(claims := data.claims[token := Charge(data, token) + amount]));
      if !ok {
        return WriteFailed;
      }
      funded := funded + amount;
      return Funded(amount);
    }

    /** `close`: the lease is given up whatever happens to the file. */
    method Close(retained: int) returns (ok: bool)
      modifies this, file
      ensures funded == 0 && file.leases == old(file.leases) - {token}
      ensures var r := Retire(old(file.saved), token, old(file.leases), old(funded), retained);
              if ok && old(funded) != 0 then r.Some? && file.saved == r else file.saved == old(file.saved)
      ensures old(funded) == 0 ==> ok
    {
      hide Sum;
      ok := true;
      if funded != 0 {
        var loaded := LoadRegistry(0);
        ok := false;
        if loaded.Some? {
          var data := loaded.value;
          if token in data.claims && data.claims[token] == funded && 0 <= retained <= funded {
            ok := file.Save(Registry(data.free, data.spent + retained, data.claims - {token}));
          }
        }
      }
      file.leases := file.leases - {token};
      funded := 0;
    }
  }

  /** A claim counts as live for its own process with or without its lease. */
  lemma OwnLeaseIsNoMatter(saved: Option<Registry>, self: Token, live: set<Token>, free: int)
    ensures Room(saved, self, live + {self}, free) == Room(saved, self, live, free)
  {
    assert forall t :: t == self || t in live + {self} <==> t == self || t in live;
  }

  type Path = string

  datatype Failure = Negative | Closed | Unavailable

  const WINDOW: int := 8 * 1024 * 1024
  const STALE: real := 30.0

  /** `CapacityBudget`: batch credit bought from the claim in windows. Clock
      readings and free-space samples are inputs; a failed sample is `None`. */
  class CapacityBudget {
    const file: RegistryFile
    const token: Token
    const headroom: int
    const totalHint: Option<int>
    var claim: CapacityClaim?
    var remaining: int
    var funded: int
    var free: Option<int>
    var sampled: real
    var failed: bool
    var closed: bool
    var reserved: map<Path, int>
    /** Credit that releases kept charged: published or retained bytes. */
    ghost var kept: int

    /** The two layers stay in step: all credit bought is headroom, unspent,
        reserved or kept, and the claim was funded with exactly that amount. */
    ghost predicate Valid()
      reads this, claim
    {
      && headroom >= 1 && funded >= 0 && remaining >= 0 && kept >= 0
      && (forall p | p in reserved :: reserved[p] >= 0)
      && funded == (if funded > 0 then headroom else 0) + remaining + Sum(reserved) + kept
      && (!closed ==> funded == if claim == null then 0 else claim.funded)
      && (claim != null ==> claim.file == file && claim.token == token)
      && (closed ==> claim == null)
    }

    constructor (file: RegistryFile, token: Token, concurrency: int, totalHint: Option<int>)
      ensures Valid() && !closed && claim == null && fresh(this)
      ensures this.file == file && this.token == token && this.totalHint == totalHint
      ensures headroom == Max(1, concurrency) * 1024 * 1024
    {
      this.file, this.token, this.totalHint := file, token, totalHint;
      headroom := Max(1, concurrency) * 1024 * 1024;
      claim, remaining, funded, free, sampled := null, 0, 0, None, 0.0;
      failed, closed, reserved, kept := false, false, map[], 0;
    }

    /** The file agrees about what was bought so far. */
    ghost predicate Undisturbed()
      reads this, file
    {
      Agrees(file.saved, token, funded)
    }

    /** The sample that a purchase goes by: renewed when it is missing or old. */
    ghost function Sampled(now: real, sample: Option<int>): Option<int>
      reads this
    {
      if free.None? || now - sampled >= STALE then sample else free
    }

    /** What can be bought by that sample, headroom not counted. */
    ghost function Purchasable(now: real, sample: Option<int>): int
      reads this, file
      requires Sampled(now, sample).Some?
    {
      Room(file.saved, token, file.leases, Sampled(now, sample).value) - if funded == 0 then headroom else 0
    }

    /** How far credit is bought in advance: the first time for the whole batch if its
        size is known and fits. */
    ghost function Window(free: int): int
      reads this
    {
      if funded == 0 && totalHint.Some? && totalHint.value <= free then totalHint.value else WINDOW
    }

    /** `_fund`: on success at least `need` more bytes are unspent. */
    method Fund(need: int, now: real, sample: Option<int>) returns (ok: bool)
      requires Valid() && !closed && need >= 0 && (claim == null ==> token !in file.leases)
      modifies this`claim, this`remaining, this`funded, this`free, this`sampled, this`failed, claim, file
      ensures Valid() && (claim == old(claim) || fresh(claim))
      ensures ok ==>
                && claim != null && remaining >= old(remaining) + need
                && failed == old(failed) && free.Some? && funded > 0
      ensures !ok ==> failed && remaining == old(remaining) && funded == old(funded)
      // it succeeds exactly when the need can be bought, and buys a window's worth
      ensures old(failed) || old(Sampled(now, sample)).None? ==> !ok
      ensures old(!failed && Undisturbed()) && old(Sampled(now, sample)).Some? ==>
                var most := old(Purchasable(now, sample));
                && (ok ==> need <= most) && (need <= most && file.reliable ==> ok)
                && (ok ==> remaining - old(remaining) == Min(most, Max(need, old(Window(Sampled(now, sample).value)))))
      ensures ok ==> remaining - old(remaining) == funded - old(funded) - if old(funded) == 0 then headroom else 0
      ensures claim != null ==>
                claim.funded - (if old(claim) == null then 0 else old(claim.funded)) == funded - old(funded)
    {
      hide Sum, Admit, Load, Room, Agrees;
      if failed {
        return false;
      }
      ok := Resample(now, sample);
      if !ok {
        return;
      }
      OpenClaim();
      var first := funded == 0;
      var minimum := need + if first then headroom else 0;
      var window := if totalHint.Some? && totalHint.value <= free.value then totalHint.value else WINDOW;
      var preferred := Max(minimum, if first then window + headroom else WINDOW);
      var reply := claim.Add(minimum, preferred, free.value);
      if !reply.Funded? {
        failed := true;
        return false;
      }
      funded := funded + reply.amount;
      remaining := remaining + reply.amount - if first then headroom else 0;
      return true;
    }

    /** The request is covered: by what was bought before, checked against the disk again
        when the sample is old, or by what can be bought for the rest. */
    ghost predicate Covers(size: int, now: real, sample: Option<int>)
      reads this, file
    {
      if free.None? || size > remaining
      then Sampled(now, sample).Some? && Max(0, size - remaining) <= Purchasable(now, sample)
      else now - sampled < STALE || (sample.Some? && size + headroom <= sample.value)
    }

    /** A sample that is missing or old is taken again. */
    method Resample(now: real, sample: Option<int>) returns (ok: bool)
      requires !failed
      modifies this`free, this`sampled, this`failed
      ensures ok <==> old(Sampled(now, sample)).Some?
      ensures ok ==> free == old(Sampled(now, sample))
      ensures failed <==> !ok
    {
      if free.None? || now - sampled >= STALE {
        if sample.None? {
          failed := true;
          return false;
        }
        free, sampled := sample, now;
      }
      return true;
    }

    /** An old sample is taken again, and must still cover the request. */
    method Recheck(size: int, now: real, sample: Option<int>) returns (ok: bool)
      requires !failed && free.Some?
      modifies this`free, this`sampled, this`failed
      ensures ok <==> now - old(sampled) < STALE || (sample.Some? && size + headroom <= sample.value)
      ensures failed <==> !ok
    {
      if now - sampled >= STALE {
        if sample.None? {
          failed := true;
          return false;
        }
        free, sampled := sample, now;
        if free.value < size + headroom {
          failed := true;
          return false;
        }
      }
      return true;
    }

    /** The claim is opened for the first purchase; that leaves the room as it was. */
    method OpenClaim()
      requires Valid() && !closed && (claim == null ==> token !in file.leases)
      modifies this`claim, file`leases
      ensures Valid() && claim != null && (claim == old(claim) || fresh(claim)) && claim.funded == funded
      ensures old(claim) != null ==> file.leases == old(file.leases)
      ensures forall f :: Room(file.saved, token, file.leases, f) == old(Room(file.saved, token, file.leases, f))
    {
      hide Sum, Room;
      if claim == null {
        forall f ensures Room(file.saved, token, file.leases + {token}, f) == Room(file.saved, token, file.leases, f) {
          OwnLeaseIsNoMatter(file.saved, token, file.leases, f);
        }
        claim := new CapacityClaim(file, token);
      }
    }

    /** `reserve`: credit moves from unspent to `local`, after buying what is missing. */
    method Reserve(local: Path, size: int, now: real, sample: Option<int>) returns (failure: Option<Failure>)
      requires Valid() && (claim == null ==> token !in file.leases)
      modifies this`claim, this`remaining, this`funded, this`free, this`sampled, this`failed, this`reserved, claim, file
      ensures Valid() && (claim == old(claim) || fresh(claim))
      ensures size < 0 <==> failure == Some(Negative)
      ensures size >= 0 && old(closed) <==> failure == Some(Closed)
      ensures size >= 0 && !old(closed) && old(failed) ==> failure == Some(Unavailable)
      ensures size >= 0 && old(!closed && !failed && Undisturbed()) ==>
                && (failure == None ==> old(Covers(size, now, sample)))
                && (old(Covers(size, now, sample)) && file.reliable ==> failure == None)
      ensures failure == None ==>
                && reserved
                   == old(reserved)[local := (if local in old(reserved) then old(reserved)[local] else 0) + size]
                && (size <= old(remaining) && old(free).Some? ==>
                      remaining == old(remaining) - size && funded == old(funded))
      ensures failure != None ==> reserved == old(reserved) && remaining == old(remaining) && funded == old(funded)
    {
      hide Sum, Room, Agrees;
      if size < 0 {
        return Some(Negative);
      }
      if closed {
        return Some(Closed);
      }
      if failed {
        return Some(Unavailable);
      }
      if free.None? || size > remaining {
        var ok := Fund(Max(0, size - remaining), now, sample);
        if !ok {
          return Some(Unavailable);
        }
      } else {
        var ok := Recheck(size, now, sample);
        if !ok {
          return Some(Unavailable);
        }
      }
      SumUpdate(reserved, local, (if local in reserved then reserved[local] else 0) + size);
      remaining := remaining - size;
      reserved := reserved[local := (if local in reserved then reserved[local] else 0) + size];
      return None;
    }

    /** `ensure`: afterwards `local` has at least `needed` bytes of credit. */
    method Ensure(local: Path, needed: int, now: real, sample: Option<int>) returns (failure: Option<Failure>)
      requires Valid() && (claim == null ==> token !in file.leases)
      modifies this`claim, this`remaining, this`funded, this`free, this`sampled, this`failed, this`reserved, claim, file
      ensures Valid() && (claim == old(claim) || fresh(claim))
      ensures failure == None ==>
                (if local in reserved then reserved[local] else 0)
                == Max(needed, if local in old(reserved) then old(reserved)[local] else 0)
      ensures forall p | p != local :: (p in reserved <==> p in old(reserved))
                && (p in reserved ==> reserved[p] == old(reserved)[p])
      ensures failure != None ==> reserved == old(reserved) && remaining == old(remaining) && funded == old(funded)
      ensures old(closed) || old(failed) ==> failure != None
      ensures old(!closed && !failed && Undisturbed()) ==>
                var extra := needed - old(if local in reserved then reserved[local] else 0);
                && (failure == None ==> extra <= 0 || old(Covers(extra, now, sample)))
                && (file.reliable && old(Covers(Max(0, extra), now, sample)) ==> failure == None)
    {
      if closed {
        return Some(Closed);
      }
      if failed {
        return Some(Unavailable);
      }
      var extra := needed - if local in reserved then reserved[local] else 0;
      if extra > 0 {
        failure := Reserve(local, extra, now, sample);
      } else if now - sampled >= STALE {
        failure := Reserve(local, 0, now, sample);
      } else {
        failure := None;
      }
    }

    /** `release`: credit that was not retained becomes unspent again. */
    method Release(local: Path, retained: int)
      requires Valid() && retained >= 0
      modifies this`reserved, this`remaining, this`kept
      ensures Valid()
      ensures reserved == old(reserved) - {local}
      ensures var held := if local in old(reserved) then old(reserved)[local] else 0;
              remaining == old(remaining) + Max(0, held - retained) && kept == old(kept) + Min(held, retained)
    {
      var held := if local in reserved then reserved[local] else 0;
      if local in reserved {
        SumRemove(reserved, local);
      } else {
        assert reserved - {local} == reserved;
      }
      reserved := reserved - {local};
      remaining := remaining + Max(0, held - retained);
      kept := kept + Min(held, retained);
    }

    /** `close`: the claim is retired for exactly the reserved and kept credit,
        which is never more than it was funded with. */
    method Close() returns (retained: int, ok: bool)
      requires Valid()
      modifies this`claim, this`closed, claim, file
      ensures Valid() && closed && claim == null
      ensures old(!closed && claim != null) ==>
                && retained == Sum(reserved) + kept && 0 <= retained <= old(claim.funded)
                && file.leases == old(file.leases) - {token}
                && var r := Retire(old(file.saved), token, old(file.leases), old(claim.funded), retained);
                   if ok && old(claim.funded) != 0 then r.Some? && file.saved == r else file.saved == old(file.saved)
      ensures old(claim) == null ==> file.saved == old(file.saved) && file.leases == old(file.leases)
    {
      retained, ok := 0, true;
      if claim != null {
        SumNonNegative(reserved);
        retained := Max(0, funded - remaining - headroom);
        ok := claim.Close(retained);
      }
      claim, closed := null, true;
    }
  }
}
