/**
  The session registry as code: each method is one critical section of the
  manager, proved against a function of the registry value. `SessionRuns`
  interleaves these sections.
*/
module SessionManager {
  import opened Prelude

  /** Principals are only ever compared. */
  type Principal = nat

  type SessionId = nat

  datatype Limits = Limits(maxSessions: nat, maxPerPrincipal: nat)

  datatype Lease = Lease(principal: Principal, lastUsed: int)

  datatype Registry = Registry(sessions: map<SessionId, Lease>, openingTotal: nat, openingBy: map<Principal, nat>)

  const NO_SESSIONS: Registry := Registry(map[], 0, map[])

  function Owned(sessions: map<SessionId, Lease>, p: Principal): set<SessionId> {
    set id | id in sessions && sessions[id].principal == p
  }

  function Opening(r: Registry, p: Principal): nat {
    if p in r.openingBy then r.openingBy[p] else 0
  }

  predicate Admits(r: Registry, limits: Limits, p: Principal) {
    && |r.sessions| + r.openingTotal < limits.maxSessions
    && |Owned(r.sessions, p)| + Opening(r, p) < limits.maxPerPrincipal
  }

  /** Why an open is refused: a full registry before a principal's own quota. */
  function Refusal(r: Registry, limits: Limits, p: Principal): (error: Option<AdbcError>)
    ensures error.None? <==>
              && |r.sessions| + r.openingTotal < limits.maxSessions
              && |Owned(r.sessions, p)| + Opening(r, p) < limits.maxPerPrincipal
    ensures error == Some(GLOBAL_QUOTA) <==> |r.sessions| + r.openingTotal >= limits.maxSessions
  {
    if Admits(r, limits, p) then None
    else if |r.sessions| + r.openingTotal >= limits.maxSessions then Some(GLOBAL_QUOTA)
    else Some(PRINCIPAL_QUOTA)
  }

  function Reserve(r: Registry, p: Principal): Registry {
    r.(openingTotal := r.openingTotal + 1, openingBy := r.openingBy[p := Opening(r, p) + 1])
  }

  function Release(r: Registry, p: Principal): Registry {
    var total := SaturatingSub(r.openingTotal, 1);
    if p !in r.openingBy then r.(openingTotal := total)
    else if SaturatingSub(r.openingBy[p], 1) == 0 then r.(openingTotal := total, openingBy := r.openingBy - {p})
    else r.(openingTotal := total, openingBy := r.openingBy[p := SaturatingSub(r.openingBy[p], 1)])
  }

  /** Sessions whose only reference is the registry's and that were idle for longer than the lease. */
  function Expired(sessions: map<SessionId, Lease>, held: set<SessionId>, now: int, ttl: nat): set<SessionId> {
    set id | id in sessions && id !in held && now - sessions[id].lastUsed > ttl
  }

  function Reap(r: Registry, held: set<SessionId>, now: int, ttl: nat): Registry {
    r.(sessions := r.sessions - Expired(r.sessions, held, now, ttl))
  }

  datatype Access = Granted(renewed: Registry) | Lapsed(remaining: Registry) | Missing | Foreign

  function Lookup(r: Registry, held: set<SessionId>, now: int, ttl: nat, id: SessionId, p: Principal): Access {
    if id !in r.sessions then Missing
    else if r.sessions[id].principal != p then Foreign
    else if id in Expired(r.sessions, held, now, ttl) then Lapsed(r.(sessions := r.sessions - {id}))
    else Granted(r.(sessions := r.sessions[id := r.sessions[id].(lastUsed := now)]))
  }

  function NotFoundError(kind: string): AdbcError {
    AdbcError(NotFound, kind + " was not found")
  }

  const FOREIGN: AdbcError := AdbcError(Unauthorized, "session does not belong to the authenticated principal")
  const GLOBAL_QUOTA: AdbcError := AdbcError(InvalidState, "global session quota exceeded")
  const PRINCIPAL_QUOTA: AdbcError := AdbcError(InvalidState, "per-principal session quota exceeded")
  const SHUTTING_DOWN: AdbcError := AdbcError(InvalidState, "proxy is shutting down")

  class Manager {
    const limits: Limits
    const ttl: nat
    var sessions: map<SessionId, Lease>
    var openingTotal: nat
    var openingBy: map<Principal, nat>
    var closing: bool

    function State(): Registry
      reads this
    {
      Registry(sessions, openingTotal, openingBy)
    }

    constructor (limits: Limits, ttl: nat)
      ensures this.limits == limits && this.ttl == ttl
      ensures State() == NO_SESSIONS && !closing
    {
      this.limits := limits;
      this.ttl := ttl;
      sessions := map[];
      openingTotal := 0;
      openingBy := map[];
      closing := false;
    }

    method CountOwned(principal: Principal) returns (count: nat)
      ensures count == |Owned(sessions, principal)|
      ensures count == |set id | id in sessions && sessions[id].principal == principal|
    {
      count := 0;
      var todo := sessions.Keys;
      ghost var counted: set<SessionId> := {};
      while todo != {}
        invariant todo <= sessions.Keys
        invariant counted == set id | id in sessions && id !in todo && sessions[id].principal == principal
        invariant count == |counted|
        decreases |todo|
      {
        var id :| id in todo;
        todo := todo - {id};
        if sessions[id].principal == principal {
          count := count + 1;
          counted := counted + {id};
        }
      }
      assert counted == Owned(sessions, principal);
      assert counted == set id | id in sessions && sessions[id].principal == principal;
    }

    /** `reserve_open`, undisturbed: reap first, then admit exactly while both quotas leave room. */
    method ReserveOpen(principal: Principal, held: set<SessionId>, now: int) returns (error: Option<AdbcError>)
      modifies this
      ensures closing == old(closing)
      ensures closing ==> error == Some(SHUTTING_DOWN) && State() == old(State())
      ensures !closing ==>
                var reaped := Reap(old(State()), held, now, ttl);
                && error == Refusal(reaped, limits, principal)
                && State() == if error.None? then Reserve(reaped, principal) else reaped
    {
      if closing {
        return Some(SHUTTING_DOWN);
      }
      var _ := ReapExpired(held, now);
      error := Admit(principal);
    }

    /** The second critical section of `reserve_open`: the flag may have been stored since the first look. */
    method Admit(principal: Principal) returns (error: Option<AdbcError>)
      modifies this`openingTotal, this`openingBy
      ensures error == if closing then Some(SHUTTING_DOWN) else Refusal(old(State()), limits, principal)
      ensures State() == if error.None? then Reserve(old(State()), principal) else old(State())
    {
      if closing {
        return Some(SHUTTING_DOWN);
      }
      error := CheckQuotas(principal);
      if error.None? {
        CountReservation(principal);
      }
    }

    method CountReservation(principal: Principal)
      modifies this`openingTotal, this`openingBy
      ensures State() == Reserve(old(State()), principal)
    {
      openingTotal := openingTotal + 1;
      openingBy := openingBy[principal := (if principal in openingBy then openingBy[principal] else 0) + 1];
    }

    /** The global quota is reported before the principal's own. */
    method CheckQuotas(principal: Principal) returns (error: Option<AdbcError>)
      ensures error == Refusal(State(), limits, principal)
    {
      if |sessions| + openingTotal >= limits.maxSessions {
        return Some(GLOBAL_QUOTA);
      }
      var active := CountOwned(principal);
      var opening := if principal in openingBy then openingBy[principal] else 0;
      if active + opening >= limits.maxPerPrincipal {
        return Some(PRINCIPAL_QUOTA);
      }
      return None;
    }

    /** `release_open_reservation_locked`. */
    method ReleaseOpenReservation(principal: Principal)
      modifies this`openingTotal, this`openingBy
      ensures State() == Release(old(State()), principal)
    {
      openingTotal := SaturatingSub(openingTotal, 1);
      if principal in openingBy {
        openingBy := openingBy[principal := SaturatingSub(openingBy[principal], 1)];
        if openingBy[principal] == 0 {
          openingBy := openingBy - {principal};
        }
      }
    }

    /** The last section of `open`: give the reservation back and, unless shutting down, register. */
    method PublishOpened(principal: Principal, id: SessionId, createdAt: int) returns (error: Option<AdbcError>)
      modifies this
      ensures closing == old(closing)
      ensures error == if closing then Some(SHUTTING_DOWN) else None
      ensures var released := Release(old(State()), principal);
              State() == if closing then released
                         else released.(sessions := released.sessions[id := Lease(principal, createdAt)])
    {
      ReleaseOpenReservation(principal);
      if closing {
        return Some(SHUTTING_DOWN);
      }
      sessions := sessions[id := Lease(principal, createdAt)];
      return None;
    }

    method Get(id: SessionId, principal: Principal, held: set<SessionId>, now: int) returns (error: Option<AdbcError>)
      modifies this
      ensures closing == old(closing)
      ensures match Lookup(old(State()), held, now, ttl, id, principal)
              case Missing => error == Some(NotFoundError("session")) && State() == old(State())
              case Foreign => error == Some(FOREIGN) && State() == old(State())
              case Lapsed(remaining) => error == Some(NotFoundError("expired session")) && State() == remaining
              case Granted(renewed) => error == None && State() == renewed
    {
      if id !in sessions {
        return Some(NotFoundError("session"));
      }
      var lease := sessions[id];
      if lease.principal != principal {
        return Some(FOREIGN);
      }
      var alreadyInFlight := id in held;
      if now - lease.lastUsed > ttl && !alreadyInFlight {
        sessions := sessions - {id};
        return Some(NotFoundError("expired session"));
      }
      sessions := sessions[id := lease.(lastUsed := now)];
      return None;
    }

    method Close(id: SessionId, principal: Principal) returns (error: Option<AdbcError>)
      modifies this`sessions
      ensures error.None? <==> id in old(sessions) && old(sessions)[id].principal == principal
      ensures sessions == if error.None? then old(sessions) - {id} else old(sessions)
      ensures id !in old(sessions) ==> error == Some(NotFoundError("session"))
      ensures id in old(sessions) && error.Some? ==> error == Some(FOREIGN)
    {
      if id !in sessions {
        return Some(NotFoundError("session"));
      }
      if sessions[id].principal != principal {
        return Some(FOREIGN);
      }
      sessions := sessions - {id};
      return None;
    }

    /** `reap_expired`: collect, then remove. */
    method ReapExpired(held: set<SessionId>, now: int) returns (count: nat)
      modifies this`sessions
      ensures State() == Reap(old(State()), held, now, ttl)
      ensures count == |Expired(old(sessions), held, now, ttl)|
    {
      var expired: set<SessionId> := {};
      var todo := sessions.Keys;
      while todo != {}
        invariant todo <= sessions.Keys
        invariant expired == set id | id in Expired(sessions, held, now, ttl) && id !in todo
        decreases |todo|
      {
        var id :| id in todo;
        todo := todo - {id};
        if id !in held && now - sessions[id].lastUsed > ttl {
          expired := expired + {id};
        }
      }
      assert expired == Expired(sessions, held, now, ttl);
      count := |expired|;
      sessions := sessions - expired;
    }

    method CloseAll() returns (count: nat)
      modifies this`sessions, this`closing
      ensures closing && sessions == map[] && count == |old(sessions)|
    {
      closing := true;
      count := |sessions|;
      sessions := map[];
    }
  }
}
