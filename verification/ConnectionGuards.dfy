/** Per-IP pre-login slots and the guards that hold them, `src/net/connection_guard.rs`. */
module ConnectionGuards {
  import opened Bytes
  import opened SlotCounts

  /** One connection's hold on its IP's pre-login slot; `released` from the start when it holds none. */
  class PreLoginGuard {
    const ip: Option<string>
    var released: bool

    constructor (ip: Option<string>, released: bool)
      ensures this.ip == ip && this.released == released
    {
      this.ip, this.released := ip, released;
    }
  }

  class PreLoginConnections {
    var counts: map<string, int>
    /** The guards that have not given their slot back, with the IP each counts against. */
    ghost var holders: map<PreLoginGuard, string>

    /** Every count is the number of unreleased guards of that IP, and no IP has a zero entry. */
    ghost predicate Valid()
      reads this, holders.Keys
    {
      && Exact(counts, holders)
      && forall g :: g in holders ==> !g.released && g.ip == Some(holders[g])
    }

    constructor ()
      ensures Valid() && counts == map[] && holders == map[]
    {
      counts, holders := map[], map[];
    }

    method TryAcquire(ip: string, max: int) returns (ok: bool)
      modifies `counts
      requires forall k :: k in counts ==> counts[k] > 0
      ensures counts == Acquire(old(counts), ip, max).table && ok == Acquire(old(counts), ip, max).ok
    {
      var counter := (if ip in counts then counts[ip] else 0) + 1;
      counts := counts[ip := counter];
      if counter > max {
        counts := counts[ip := counter - 1];
        if counts[ip] == 0 {
          counts := counts - {ip};
        }
        return false;
      }
      return true;
    }

    method ReleaseSlot(ip: string)
      modifies `counts
      ensures counts == Release(old(counts), ip)
    {
      if ip in counts {
        if counts[ip] <= 1 {
          counts := counts - {ip};
        } else {
          counts := counts[ip := counts[ip] - 1];
        }
      }
    }

    /**
     * `PreLoginGuard::acquire`: refused exactly when a cap is set and the IP already has that
     * many unreleased guards; a refusal changes nothing, an uncounted guard holds no slot.
     */
    method NewGuard(ip: Option<string>, max: nat) returns (guard: Option<PreLoginGuard>)
      requires Valid()
      modifies this
      ensures Valid()
      ensures guard.None? <==> max > 0 && ip.Some? && |HoldersOf(old(holders), ip.value)| >= max
      ensures guard.None? ==> counts == old(counts) && holders == old(holders)
      ensures guard.Some? ==> fresh(guard.value)
      ensures guard.Some? && (max == 0 || ip.None?) ==> guard.value.released && counts == old(counts) && holders == old(holders)
      ensures guard.Some? && max > 0 && ip.Some? ==> !guard.value.released && holders == old(holders)[guard.value := ip.value]
      ensures Within(old(counts), max) ==> Within(counts, max)
    {
      if max == 0 || ip.None? {
        var g := new PreLoginGuard(None, true);
        return Some(g);
      }
      var g := new PreLoginGuard(ip, false);
      AcquireKeepsExact(counts, holders, g, ip.value, max);
      var ok := TryAcquire(ip.value, max);
      if ok {
        holders := holders[g := ip.value];
        return Some(g);
      }
      return None;
    }

    /** `done` and `drop` alike: the first one gives the slot back, later ones do nothing. */
    method ReleaseGuard(g: PreLoginGuard)
      requires Valid() && (g.released || g in holders)
      modifies this, g
      ensures Valid() && g.released
      ensures holders == old(holders) - {g}
      ensures old(g.released) ==> counts == old(counts)
      ensures forall max :: Within(old(counts), max) ==> Within(counts, max)
    {
      if !g.released {
        g.released := true;
        forall max: int ensures Within(old(counts), max) ==> Within(Release(old(counts), old(holders)[g]), max) {
          ReleaseKeepsExact(old(counts), old(holders), g, max);
        }
        ReleaseKeepsExact(counts, holders, g, 0);
        if g.ip.Some? {
          ReleaseSlot(g.ip.value);
        }
        holders := holders - {g};
      } else {
        assert g !in holders;
        assert holders - {g} == holders;
      }
    }
  }
}
