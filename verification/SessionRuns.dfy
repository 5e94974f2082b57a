/**
  Every interleaving of session opens, failures, requests, closes, reaps and
  shutdown. An `open` gives its reservation back and reads the closing flag with
  the lock held, and inserts in a later action under the same lock: the flag
  itself is stored without the lock and may change in between.
*/
module SessionRuns {
  import opened Prelude
  import opened Sums
  import opened SessionManager

  type ThreadId = nat

  datatype OpenPhase =
    | Checked(principal: Principal)                     // passed the unlocked shutdown check
    | Reserved(principal: Principal)                    // holds a reservation; the backend is opening
    | Inserting(principal: Principal, id: SessionId, since: int)    // holds the lock; found the flag clear

  /**
    `refs` counts strong references outside the registry, `destroyed` lists sessions in the order in
    which their last reference went away, `taken` remembers that a shutdown has emptied the map.
  */
  datatype World = World(
    reg: Registry,
    closing: bool,
    lock: Option<ThreadId>,
    opens: map<ThreadId, OpenPhase>,
    refs: map<SessionId, nat>,
    created: nat,
    destroyed: seq<SessionId>,
    taken: bool,
    now: int)

  const START: World := World(NO_SESSIONS, false, None, map[], map[], 0, [], false, 0)

  datatype Step =
    | BeginOpen(t: ThreadId, principal: Principal)
    | ReserveStep(t: ThreadId)
    | FailOpen(t: ThreadId)
    | LockAndCheck(t: ThreadId, waited: nat)
    | Insert(t: ThreadId)
    | GetStep(id: SessionId, principal: Principal)
    | CloseStep(id: SessionId, principal: Principal)
    | ReapStep
    | DropRef(id: SessionId)
    | StoreClosing
    | TakeAll
    | Tick(elapsed: nat)

  function Refs(w: World, id: SessionId): nat {
    if id in w.refs then w.refs[id] else 0
  }

  /** Sessions with a strong count above one. */
  function Held(w: World): set<SessionId> {
    set id | id in w.refs && w.refs[id] > 0
  }

  function AddRefs(w: World, ids: set<SessionId>): map<SessionId, nat> {
    map id | id in w.refs.Keys + ids :: Refs(w, id) + (if id in ids then 1 else 0)
  }

  /** Sessions leave the registry: the remover now owns their references. */
  function Detach(w: World, ids: set<SessionId>): World {
    w.(reg := w.reg.(sessions := w.reg.sessions - ids), refs := AddRefs(w, ids))
  }

  // ---- The actions ----

  /** The unlocked shutdown check. */
  function DoBegin(w: World, t: ThreadId, p: Principal): World {
    if t in w.opens || w.closing then w else w.(opens := w.opens[t := Checked(p)])
  }

  predicate Ready(w: World, t: ThreadId) {
    w.lock.None? && t in w.opens
  }

  function DoReserve(limits: Limits, w: World, t: ThreadId): World {
    if !Ready(w, t) || !w.opens[t].Checked? then w
    else if w.closing || !Admits(w.reg, limits, w.opens[t].principal) then w.(opens := w.opens - {t})
    else w.(reg := Reserve(w.reg, w.opens[t].principal), opens := w.opens[t := Reserved(w.opens[t].principal)])
  }

  /** The backend failed or timed out: give the reservation back. */
  function DoFail(w: World, t: ThreadId): World {
    if !Ready(w, t) || !w.opens[t].Reserved? then w
    else w.(reg := Release(w.reg, w.opens[t].principal), opens := w.opens - {t})
  }

  /** Take the lock, give the reservation back, read the flag. The session object was built before the
      lock was obtained, `waited` ago; when refused it is left to its owner. */
  function DoLock(w: World, t: ThreadId, waited: nat): World {
    if !Ready(w, t) || !w.opens[t].Reserved? then w
    else
      var p := w.opens[t].principal;
      var freed := w.(reg := Release(w.reg, p), created := w.created + 1);
      if w.closing then freed.(opens := w.opens - {t}, refs := w.refs[w.created := 1])
      else freed.(opens := w.opens[t := Inserting(p, w.created, w.now - waited)], lock := Some(t))
  }

  /** Register and unlock. */
  function DoInsert(w: World, t: ThreadId): World {
    if w.lock != Some(t) || t !in w.opens || !w.opens[t].Inserting? then w
    else
      var Inserting(p, id, since) := w.opens[t];
      w.(reg := w.reg.(sessions := w.reg.sessions[id := Lease(p, since)]), opens := w.opens - {t}, lock := None)
  }

  function DoGet(ttl: nat, w: World, id: SessionId, p: Principal): World {
    if w.lock.Some? then w
    else
      match Lookup(w.reg, Held(w), w.now, ttl, id, p)
      case Granted(renewed) => w.(reg := renewed, refs := AddRefs(w, {id}))
      case Lapsed(_) => Detach(w, {id})
      case _ => w
  }

  function DoClose(w: World, id: SessionId, p: Principal): World {
    if w.lock.Some? || id !in w.reg.sessions || w.reg.sessions[id].principal != p then w else Detach(w, {id})
  }

  function DoReap(ttl: nat, w: World): World {
    if w.lock.Some? then w else Detach(w, Expired(w.reg.sessions, Held(w), w.now, ttl))
  }

  /** `close_all` after it stored the flag. */
  function DoTake(w: World): World {
    if w.lock.Some? || !w.closing then w else Detach(w, w.reg.sessions.Keys).(taken := true)
  }

  /** A reference goes away; the last one destroys the session. */
  function DoDrop(w: World, id: SessionId): World {
    if Refs(w, id) == 0 then w
    else
      var fewer := w.(refs := w.refs[id := Refs(w, id) - 1]);
      if Refs(w, id) == 1 && id !in w.reg.sessions then fewer.(destroyed := w.destroyed + [id]) else fewer
  }

  /** An action that is not enabled changes nothing, so every list of actions is a run. */
  function Next(limits: Limits, ttl: nat, w: World, step: Step): World {
    match step
    case BeginOpen(t, p) => DoBegin(w, t, p)
    case ReserveStep(t) => DoReserve(limits, w, t)
    case FailOpen(t) => DoFail(w, t)
    case LockAndCheck(t, waited) => DoLock(w, t, waited)
    case Insert(t) => DoInsert(w, t)
    case GetStep(id, p) => DoGet(ttl, w, id, p)
    case CloseStep(id, p) => DoClose(w, id, p)
    case ReapStep => DoReap(ttl, w)
    case DropRef(id) => DoDrop(w, id)
    case StoreClosing => w.(closing := true)
    case TakeAll => DoTake(w)
    case Tick(elapsed) => w.(now := w.now + elapsed)
  }

  function Run(limits: Limits, ttl: nat, w: World, steps: seq<Step>): World {
    if steps == [] then w
    else Next(limits, ttl, Run(limits, ttl, w, steps[..|steps| - 1]), steps[|steps| - 1])
  }

  // ---- Admission ----

  ghost function Reservations(opens: map<ThreadId, OpenPhase>): set<ThreadId> {
    set t | t in opens && opens[t].Reserved?
  }

  ghost function ReservationsOf(opens: map<ThreadId, OpenPhase>, p: Principal): set<ThreadId> {
    set t | t in opens && opens[t] == Reserved(p)
  }

  /** One for the open that sits between its two locked actions. */
  function Landing(w: World): nat {
    if w.lock.Some? then 1 else 0
  }

  function LandingOf(w: World, p: Principal): nat {
    if w.lock.Some? && w.lock.value in w.opens && w.opens[w.lock.value].principal == p then 1 else 0
  }

  ghost predicate LockOk(w: World) {
    && (w.lock.Some? ==> w.lock.value in w.opens && w.opens[w.lock.value].Inserting?)
    && (forall t | t in w.opens && w.opens[t].Inserting? :: w.lock == Some(t))
  }

  ghost predicate CountOk(w: World, p: Principal) {
    Opening(w.reg, p) == |ReservationsOf(w.opens, p)|
  }

  ghost predicate Counted(w: World) {
    && w.reg.openingTotal == |Reservations(w.opens)|
    && (forall p :: CountOk(w, p))
    && (forall p | p in w.reg.openingBy :: w.reg.openingBy[p] > 0)
    && Sum(w.reg.openingBy) == w.reg.openingTotal
  }

  ghost predicate QuotaOk(limits: Limits, w: World, p: Principal) {
    |Owned(w.reg.sessions, p)| + Opening(w.reg, p) + LandingOf(w, p) <= limits.maxPerPrincipal
  }

  ghost predicate WithinLimits(limits: Limits, w: World) {
    && |w.reg.sessions| + w.reg.openingTotal + Landing(w) <= limits.maxSessions
    && forall p :: QuotaOk(limits, w, p)
  }

  /** Once taken, the map stays empty: nobody holds the lock and whoever gets it sees the flag. */
  ghost predicate ShutOk(w: World) {
    w.taken ==> w.closing && w.lock.None? && w.reg.sessions == map[]
  }

  ghost predicate Admission(limits: Limits, w: World) {
    LockOk(w) && Counted(w) && WithinLimits(limits, w) && ShutOk(w)
  }

  ghost predicate OnlyThread(opens: map<ThreadId, OpenPhase>, after: map<ThreadId, OpenPhase>, t: ThreadId) {
    forall u | u != t :: (u in after <==> u in opens) && (u in opens ==> after[u] == opens[u])
  }

  /** A change of thread `t` only, by which it gains or loses no reservation. */
  lemma SameReservations(w: World, after: World, t: ThreadId)
    requires Counted(w)
    requires after.reg.openingTotal == w.reg.openingTotal && after.reg.openingBy == w.reg.openingBy
    requires t in w.opens ==> !w.opens[t].Reserved?
    requires t in after.opens ==> !after.opens[t].Reserved?
    requires OnlyThread(w.opens, after.opens, t)
    ensures Counted(after)
  {
    assert Reservations(after.opens) == Reservations(w.opens);
    forall p
      ensures CountOk(after, p)
    {
      assert CountOk(w, p);
      assert ReservationsOf(after.opens, p) == ReservationsOf(w.opens, p);
    }
  }

  /** Thread `t` has a reservation for `p` in `more` and none in `less`. */
  lemma OneReservation(less: map<ThreadId, OpenPhase>, more: map<ThreadId, OpenPhase>, t: ThreadId, p: Principal)
    requires OnlyThread(less, more, t)
    requires t in more && more[t] == Reserved(p)
    requires t in less ==> !less[t].Reserved?
    ensures |Reservations(more)| == |Reservations(less)| + 1
    ensures |ReservationsOf(more, p)| == |ReservationsOf(less, p)| + 1
    ensures forall q | q != p :: ReservationsOf(more, q) == ReservationsOf(less, q)
  {
    assert Reservations(more) == Reservations(less) + {t};
    assert ReservationsOf(more, p) == ReservationsOf(less, p) + {t};
  }

  lemma ReserveCounted(w: World, after: World, t: ThreadId, p: Principal)
    requires Counted(w) && t in w.opens && w.opens[t] == Checked(p)
    requires after.reg == Reserve(w.reg, p) && after.opens == w.opens[t := Reserved(p)]
    ensures Counted(after)
  {
    OneReservation(w.opens, after.opens, t, p);
    SumUpdated(w.reg.openingBy, p, Opening(w.reg, p) + 1);
    forall q ensures CountOk(after, q) { assert CountOk(w, q); }
  }

  /** The saturating subtractions of a release never saturate, and no zero counter is left behind. */
  lemma ReleaseExact(w: World, t: ThreadId)
    requires Counted(w) && t in w.opens && w.opens[t].Reserved?
    ensures var p := w.opens[t].principal;
            var r := Release(w.reg, p);
            && w.reg.openingTotal >= 1 && p in w.reg.openingBy && w.reg.openingBy[p] >= 1
            && r.openingTotal == w.reg.openingTotal - 1
            && (forall q :: Opening(r, q) == Opening(w.reg, q) - (if q == p then 1 else 0))
            && (forall q | q in r.openingBy :: r.openingBy[q] > 0)
            && Sum(r.openingBy) == r.openingTotal
            && r.sessions == w.reg.sessions
  {
    var p := w.opens[t].principal;
    assert t in Reservations(w.opens) && t in ReservationsOf(w.opens, p);
    assert CountOk(w, p);
    SumWithout(w.reg.openingBy, p);
    SumUpdated(w.reg.openingBy, p, SaturatingSub(w.reg.openingBy[p], 1));
  }

  lemma ReleaseCounted(w: World, after: World, t: ThreadId)
    requires Counted(w) && t in w.opens && w.opens[t].Reserved?
    requires after.reg == Release(w.reg, w.opens[t].principal)
    requires t in after.opens ==> !after.opens[t].Reserved?
    requires OnlyThread(w.opens, after.opens, t)
    ensures Counted(after)
  {
    ReleaseExact(w, t);
    OneReservation(after.opens, w.opens, t, w.opens[t].principal);
    forall q ensures CountOk(after, q) { assert CountOk(w, q); }
  }

  lemma OwnedShrinks(sessions: map<SessionId, Lease>, ids: set<SessionId>, p: Principal)
    ensures |Owned(sessions - ids, p)| <= |Owned(sessions, p)|
  {
    Subset(Owned(sessions - ids, p), Owned(sessions, p));
  }

  lemma DetachKeeps(limits: Limits, w: World, ids: set<SessionId>)
    requires Admission(limits, w) && w.lock.None?
    ensures Admission(limits, Detach(w, ids))
  {
    var after := Detach(w, ids);
    forall p
      ensures CountOk(after, p) && QuotaOk(limits, after, p)
    {
      OwnedShrinks(w.reg.sessions, ids, p);
      assert CountOk(w, p) && QuotaOk(limits, w, p);
    }
    Subset((w.reg.sessions - ids).Keys, w.reg.sessions.Keys);
  }

  lemma BeginKeeps(limits: Limits, w: World, t: ThreadId, p: Principal)
    requires Admission(limits, w)
    ensures Admission(limits, DoBegin(w, t, p))
  {
    var after := DoBegin(w, t, p);
    if after != w {
      SameReservations(w, after, t);
      forall q ensures QuotaOk(limits, after, q) { assert QuotaOk(limits, w, q); }
    }
  }

  lemma ReserveKeeps(limits: Limits, w: World, t: ThreadId)
    requires Admission(limits, w)
    ensures Admission(limits, DoReserve(limits, w, t))
  {
    var after := DoReserve(limits, w, t);
    if Ready(w, t) && w.opens[t].Checked? {
      var p := w.opens[t].principal;
      if w.closing || !Admits(w.reg, limits, p) {
        SameReservations(w, after, t);
      } else {
        ReserveCounted(w, after, t, p);
      }
      forall q ensures QuotaOk(limits, after, q) { assert QuotaOk(limits, w, q); }
    }
  }

  lemma FailKeeps(limits: Limits, w: World, t: ThreadId)
    requires Admission(limits, w)
    ensures Admission(limits, DoFail(w, t))
  {
    var after := DoFail(w, t);
    if Ready(w, t) && w.opens[t].Reserved? {
      ReleaseExact(w, t);
      ReleaseCounted(w, after, t);
      forall q ensures QuotaOk(limits, after, q) { assert QuotaOk(limits, w, q); }
    }
  }

  lemma LockKeeps(limits: Limits, w: World, t: ThreadId, waited: nat)
    requires Admission(limits, w)
    ensures Admission(limits, DoLock(w, t, waited))
  {
    var after := DoLock(w, t, waited);
    if Ready(w, t) && w.opens[t].Reserved? {
      ReleaseExact(w, t);
      ReleaseCounted(w, after, t);
      forall q ensures QuotaOk(limits, after, q) { assert QuotaOk(limits, w, q); }
    }
  }

  lemma InsertKeeps(limits: Limits, w: World, t: ThreadId)
    requires Admission(limits, w)
    requires w.lock == Some(t) ==> w.opens[t].id !in w.reg.sessions
    ensures Admission(limits, DoInsert(w, t))
  {
    var after := DoInsert(w, t);
    if w.lock == Some(t) {
      var Inserting(p, id, _) := w.opens[t];
      SameReservations(w, after, t);
      assert after.reg.sessions.Keys == w.reg.sessions.Keys + {id};
      forall q
        ensures QuotaOk(limits, after, q)
      {
        assert QuotaOk(limits, w, q);
        if q == p {
          assert Owned(after.reg.sessions, q) == Owned(w.reg.sessions, q) + {id};
        } else {
          assert Owned(after.reg.sessions, q) == Owned(w.reg.sessions, q);
        }
      }
    }
  }

  lemma GetKeeps(limits: Limits, ttl: nat, w: World, id: SessionId, p: Principal)
    requires Admission(limits, w)
    ensures Admission(limits, DoGet(ttl, w, id, p))
  {
    if w.lock.None? {
      var access := Lookup(w.reg, Held(w), w.now, ttl, id, p);
      if access.Lapsed? {
        DetachKeeps(limits, w, {id});
      } else if access.Granted? {
        var after := DoGet(ttl, w, id, p);
        assert after.reg.sessions.Keys == w.reg.sessions.Keys;
        forall q
          ensures CountOk(after, q) && QuotaOk(limits, after, q)
        {
          assert Owned(after.reg.sessions, q) == Owned(w.reg.sessions, q);
          assert CountOk(w, q) && QuotaOk(limits, w, q);
        }
      }
    }
  }

  lemma TakeKeeps(limits: Limits, w: World)
    requires Admission(limits, w)
    ensures Admission(limits, DoTake(w))
  {
    if w.lock.None? && w.closing {
      DetachKeeps(limits, w, w.reg.sessions.Keys);
      var detached := Detach(w, w.reg.sessions.Keys);
      assert detached.reg.sessions == map[];
      var after := DoTake(w);
      forall p ensures CountOk(after, p) && QuotaOk(limits, after, p) {
        assert CountOk(detached, p) && QuotaOk(limits, detached, p);
      }
    }
  }

  /** Changes of the clock, the flag or the references do not touch admission. */
  lemma AdmissionFrame(limits: Limits, w: World, after: World)
    requires Admission(limits, w)
    requires after.reg == w.reg && after.opens == w.opens && after.lock == w.lock
    requires (w.closing ==> after.closing) && after.taken == w.taken
    ensures Admission(limits, after)
  {
    forall p ensures CountOk(after, p) && QuotaOk(limits, after, p) { assert CountOk(w, p) && QuotaOk(limits, w, p); }
  }

  // ---- Lifetimes ----

  predicate InHand(w: World, id: SessionId) {
    w.lock.Some? && w.lock.value in w.opens && w.opens[w.lock.value].Inserting? && w.opens[w.lock.value].id == id
  }

  /** Somebody owns the session: the registry, a request, or the open that is about to register it. */
  predicate Alive(w: World, id: SessionId) {
    id in w.reg.sessions || Refs(w, id) > 0 || InHand(w, id)
  }

  ghost predicate LifeOk(w: World, id: SessionId) {
    && (id >= w.created ==> !Alive(w, id) && id !in w.destroyed)
    && (id < w.created ==> (Alive(w, id) <==> id !in w.destroyed))
    && (InHand(w, id) ==> id !in w.reg.sessions && Refs(w, id) == 0)
  }

  ghost predicate Lifetimes(w: World) {
    && (forall id: SessionId :: LifeOk(w, id))
    && (forall i, j | 0 <= i < j < |w.destroyed| :: w.destroyed[i] != w.destroyed[j])
  }

  /** Actions that neither create nor destroy: each session keeps its owners or swaps one for another. */
  lemma LifeFrame(w: World, after: World)
    requires Lifetimes(w)
    requires after.created == w.created && after.destroyed == w.destroyed
    requires forall id: SessionId :: Alive(after, id) == Alive(w, id)
    requires forall id: SessionId :: InHand(after, id) ==> id !in after.reg.sessions && Refs(after, id) == 0
    ensures Lifetimes(after)
  {
    forall id: SessionId ensures LifeOk(after, id) { assert LifeOk(w, id); }
  }

  lemma DetachLife(w: World, ids: set<SessionId>)
    requires LockOk(w) && Lifetimes(w) && w.lock.None? && ids <= w.reg.sessions.Keys
    ensures Lifetimes(Detach(w, ids))
  {
    var after := Detach(w, ids);
    forall id: SessionId
      ensures Alive(after, id) == Alive(w, id)
    {
      assert id in ids ==> Refs(after, id) > 0;
      assert id !in ids ==> Refs(after, id) == Refs(w, id);
    }
    LifeFrame(w, after);
  }

  lemma LockLife(w: World, t: ThreadId, waited: nat)
    requires LockOk(w) && Lifetimes(w)
    ensures Lifetimes(DoLock(w, t, waited))
  {
    var after := DoLock(w, t, waited);
    if Ready(w, t) && w.opens[t].Reserved? {
      assert after.reg.sessions == w.reg.sessions;
      forall id: SessionId ensures LifeOk(after, id) { assert LifeOk(w, id); }
    }
  }

  lemma InsertLife(w: World, t: ThreadId)
    requires LockOk(w) && Lifetimes(w)
    ensures Lifetimes(DoInsert(w, t))
  {
    var after := DoInsert(w, t);
    forall id: SessionId ensures LifeOk(after, id) { assert LifeOk(w, id); }
  }

  lemma DropLife(w: World, id: SessionId)
    requires LockOk(w) && Lifetimes(w)
    ensures Lifetimes(DoDrop(w, id))
  {
    var after := DoDrop(w, id);
    assert LifeOk(w, id);
    forall i: SessionId ensures LifeOk(after, i) { assert LifeOk(w, i); }
  }

  lemma GetLife(ttl: nat, w: World, id: SessionId, p: Principal)
    requires LockOk(w) && Lifetimes(w)
    ensures Lifetimes(DoGet(ttl, w, id, p))
  {
    if w.lock.None? {
      var access := Lookup(w.reg, Held(w), w.now, ttl, id, p);
      if access.Lapsed? {
        DetachLife(w, {id});
      } else if access.Granted? {
        var after := DoGet(ttl, w, id, p);
        forall i: SessionId
          ensures Alive(after, i) == Alive(w, i)
        {
          assert i != id ==> Refs(after, i) == Refs(w, i);
        }
        LifeFrame(w, after);
      }
    }
  }

  lemma OpensLife(w: World, after: World)
    requires LockOk(w) && Lifetimes(w)
    requires after.reg.sessions == w.reg.sessions && after.refs == w.refs && after.lock == w.lock
    requires after.created == w.created && after.destroyed == w.destroyed
    requires w.lock.Some? ==> w.lock.value in after.opens && after.opens[w.lock.value] == w.opens[w.lock.value]
    ensures Lifetimes(after)
  {
    forall id: SessionId ensures LifeOk(after, id) { assert LifeOk(w, id); }
  }

  lemma TakeLife(w: World)
    requires LockOk(w) && Lifetimes(w)
    ensures Lifetimes(DoTake(w))
  {
    if w.lock.None? && w.closing {
      DetachLife(w, w.reg.sessions.Keys);
      OpensLife(Detach(w, w.reg.sessions.Keys), DoTake(w));
    }
  }

  lemma BeginLife(w: World, t: ThreadId, p: Principal)
    requires LockOk(w) && Lifetimes(w)
    ensures Lifetimes(DoBegin(w, t, p))
  {
    OpensLife(w, DoBegin(w, t, p));
  }

  lemma ReserveFrame(limits: Limits, w: World, t: ThreadId)
    requires LockOk(w)
    ensures var after := DoReserve(limits, w, t);
            && after.reg.sessions == w.reg.sessions && after.refs == w.refs && after.lock == w.lock
            && after.created == w.created && after.destroyed == w.destroyed
            && (w.lock.Some? ==> after.opens == w.opens)
  {
  }

  lemma ReserveLife(limits: Limits, w: World, t: ThreadId)
    requires LockOk(w) && Lifetimes(w)
    ensures Lifetimes(DoReserve(limits, w, t))
  {
    ReserveFrame(limits, w, t);
    OpensLife(w, DoReserve(limits, w, t));
  }

  lemma FailLife(w: World, t: ThreadId)
    requires LockOk(w) && Lifetimes(w)
    ensures Lifetimes(DoFail(w, t))
  {
    OpensLife(w, DoFail(w, t));
  }

  // ---- Every run ----

  ghost predicate Inv(limits: Limits, w: World) {
    Admission(limits, w) && Lifetimes(w)
  }

  /** The session about to be registered is not registered yet. */
  lemma InHandIsNew(w: World, t: ThreadId)
    requires Lifetimes(w) && w.lock == Some(t) && t in w.opens && w.opens[t].Inserting?
    ensures w.opens[t].id !in w.reg.sessions
  {
    assert InHand(w, w.opens[t].id);
    assert LifeOk(w, w.opens[t].id);
  }

  lemma InsertingKeeps(limits: Limits, w: World, t: ThreadId)
    requires Admission(limits, w) && Lifetimes(w)
    ensures Admission(limits, DoInsert(w, t))
  {
    if w.lock == Some(t) {
      InHandIsNew(w, t);
    }
    InsertKeeps(limits, w, t);
  }

  lemma CloseKeeps(limits: Limits, w: World, id: SessionId, p: Principal)
    requires Admission(limits, w)
    ensures Admission(limits, DoClose(w, id, p))
  {
    if DoClose(w, id, p) != w {
      DetachKeeps(limits, w, {id});
    }
  }

  lemma ReapKeeps(limits: Limits, ttl: nat, w: World)
    requires Admission(limits, w)
    ensures Admission(limits, DoReap(ttl, w))
  {
    if w.lock.None? {
      DetachKeeps(limits, w, Expired(w.reg.sessions, Held(w), w.now, ttl));
    }
  }

  /** Changes of the clock, the flag or the references, as actions. */
  lemma OutsideKeeps(limits: Limits, ttl: nat, w: World, step: Step)
    requires Admission(limits, w) && (step.DropRef? || step.StoreClosing? || step.Tick?)
    ensures Admission(limits, Next(limits, ttl, w, step))
  {
    AdmissionFrame(limits, w, Next(limits, ttl, w, step));
  }

  /** The actions, by what they do. */
  lemma NextIs(limits: Limits, ttl: nat, w: World, step: Step)
    ensures step.BeginOpen? ==> Next(limits, ttl, w, step) == DoBegin(w, step.t, step.principal)
    ensures step.ReserveStep? ==> Next(limits, ttl, w, step) == DoReserve(limits, w, step.t)
    ensures step.FailOpen? ==> Next(limits, ttl, w, step) == DoFail(w, step.t)
    ensures step.LockAndCheck? ==> Next(limits, ttl, w, step) == DoLock(w, step.t, step.waited)
    ensures step.Insert? ==> Next(limits, ttl, w, step) == DoInsert(w, step.t)
    ensures step.GetStep? ==> Next(limits, ttl, w, step) == DoGet(ttl, w, step.id, step.principal)
    ensures step.CloseStep? ==> Next(limits, ttl, w, step) == DoClose(w, step.id, step.principal)
    ensures step.ReapStep? ==> Next(limits, ttl, w, step) == DoReap(ttl, w)
    ensures step.TakeAll? ==> Next(limits, ttl, w, step) == DoTake(w)
  {
  }

  lemma NextAdmission(limits: Limits, ttl: nat, w: World, step: Step)
    requires Inv(limits, w)
    ensures Admission(limits, Next(limits, ttl, w, step))
  {
    NextIs(limits, ttl, w, step);
    if step.BeginOpen? {
      BeginKeeps(limits, w, step.t, step.principal);
    } else if step.ReserveStep? {
      ReserveKeeps(limits, w, step.t);
    } else if step.FailOpen? {
      FailKeeps(limits, w, step.t);
    } else if step.LockAndCheck? {
      LockKeeps(limits, w, step.t, step.waited);
    } else if step.Insert? {
      InsertingKeeps(limits, w, step.t);
    } else if step.GetStep? {
      GetKeeps(limits, ttl, w, step.id, step.principal);
    } else if step.CloseStep? {
      CloseKeeps(limits, w, step.id, step.principal);
    } else if step.ReapStep? {
      ReapKeeps(limits, ttl, w);
    } else if step.TakeAll? {
      TakeKeeps(limits, w);
    } else {
      OutsideKeeps(limits, ttl, w, step);
    }
  }

  lemma CloseLife(w: World, id: SessionId, p: Principal)
    requires LockOk(w) && Lifetimes(w)
    ensures Lifetimes(DoClose(w, id, p))
  {
    if DoClose(w, id, p) != w {
      DetachLife(w, {id});
    }
  }

  lemma ReapLife(ttl: nat, w: World)
    requires LockOk(w) && Lifetimes(w)
    ensures Lifetimes(DoReap(ttl, w))
  {
    if w.lock.None? {
      DetachLife(w, Expired(w.reg.sessions, Held(w), w.now, ttl));
    }
  }

  lemma NextLifetimes(limits: Limits, ttl: nat, w: World, step: Step)
    requires Inv(limits, w)
    ensures Lifetimes(Next(limits, ttl, w, step))
  {
    NextIs(limits, ttl, w, step);
    if step.BeginOpen? {
      BeginLife(w, step.t, step.principal);
    } else if step.ReserveStep? {
      ReserveLife(limits, w, step.t);
    } else if step.FailOpen? {
      FailLife(w, step.t);
    } else if step.LockAndCheck? {
      LockLife(w, step.t, step.waited);
    } else if step.Insert? {
      InsertLife(w, step.t);
    } else if step.GetStep? {
      GetLife(ttl, w, step.id, step.principal);
    } else if step.CloseStep? {
      CloseLife(w, step.id, step.principal);
    } else if step.ReapStep? {
      ReapLife(ttl, w);
    } else if step.TakeAll? {
      TakeLife(w);
    } else if step.DropRef? {
      DropLife(w, step.id);
    } else {
      OpensLife(w, Next(limits, ttl, w, step));
    }
  }

  lemma {:induction false} RunKeeps(limits: Limits, ttl: nat, w: World, steps: seq<Step>)
    requires Inv(limits, w)
    ensures Inv(limits, Run(limits, ttl, w, steps))
  {
    if steps != [] {
      var n := |steps| - 1;
      RunKeeps(limits, ttl, w, steps[..n]);
      NextAdmission(limits, ttl, Run(limits, ttl, w, steps[..n]), steps[n]);
      NextLifetimes(limits, ttl, Run(limits, ttl, w, steps[..n]), steps[n]);
    }
  }

  lemma StartOk(limits: Limits)
    ensures Inv(limits, START)
  {
    assert Reservations(START.opens) == {};
    forall p ensures CountOk(START, p) && QuotaOk(limits, START, p) {
      assert ReservationsOf(START.opens, p) == {};
      assert Owned(START.reg.sessions, p) == {};
    }
    forall id: SessionId ensures LifeOk(START, id) {}
  }

  /**
    Admission control in every interleaving: registered sessions plus reservations respect the global
    and the per-principal limit, the total equals the sum of the per-principal counters and the number
    of opens in flight, and no zero counter is stored.
  */
  lemma AdmissionSafe(limits: Limits, ttl: nat, steps: seq<Step>)
    ensures var w := Run(limits, ttl, START, steps);
            && |w.reg.sessions| + w.reg.openingTotal <= limits.maxSessions
            && (forall p :: |Owned(w.reg.sessions, p)| + Opening(w.reg, p) <= limits.maxPerPrincipal)
            && w.reg.openingTotal == Sum(w.reg.openingBy) == |Reservations(w.opens)|
            && (forall p :: Opening(w.reg, p) == |ReservationsOf(w.opens, p)|)
            && (forall p | p in w.reg.openingBy :: w.reg.openingBy[p] > 0)
  {
    StartOk(limits);
    RunKeeps(limits, ttl, START, steps);
    var w := Run(limits, ttl, START, steps);
    forall p
      ensures |Owned(w.reg.sessions, p)| + Opening(w.reg, p) <= limits.maxPerPrincipal
      ensures Opening(w.reg, p) == |ReservationsOf(w.opens, p)|
    {
      assert CountOk(w, p) && QuotaOk(limits, w, p);
    }
  }

  lemma {:induction false} TakenStays(limits: Limits, ttl: nat, w: World, steps: seq<Step>)
    requires w.taken
    ensures Run(limits, ttl, w, steps).taken
  {
    if steps != [] {
      TakenStays(limits, ttl, w, steps[..|steps| - 1]);
    }
  }

  lemma TakingTakes(w: World)
    requires w.closing && w.lock.None?
    ensures DoTake(w).taken && DoTake(w).closing
  {
  }

  lemma {:induction false} ClosingStays(limits: Limits, ttl: nat, w: World, steps: seq<Step>)
    requires w.closing
    ensures Run(limits, ttl, w, steps).closing
  {
    if steps != [] {
      ClosingStays(limits, ttl, w, steps[..|steps| - 1]);
    }
  }

  lemma NextInv(limits: Limits, ttl: nat, w: World, step: Step)
    requires Inv(limits, w)
    ensures Inv(limits, Next(limits, ttl, w, step))
  {
    NextAdmission(limits, ttl, w, step);
    NextLifetimes(limits, ttl, w, step);
  }

  /** Once `close_all` has the lock and takes the map. */
  lemma TakenIsTerminal(limits: Limits, ttl: nat, w: World, after: seq<Step>)
    requires Inv(limits, w) && w.closing && w.lock.None?
    ensures var end := Run(limits, ttl, Next(limits, ttl, w, TakeAll), after);
            end.closing && end.reg.sessions == map[]
  {
    var taken := Next(limits, ttl, w, TakeAll);
    TakingTakes(w);
    NextInv(limits, ttl, w, TakeAll);
    RunKeeps(limits, ttl, taken, after);
    TakenStays(limits, ttl, taken, after);
  }

  /** Every run in which the flag is stored at some point keeps the invariants and the flag. */
  lemma StoredStays(limits: Limits, ttl: nat, before: seq<Step>, between: seq<Step>)
    ensures var w := Run(limits, ttl, Next(limits, ttl, Run(limits, ttl, START, before), StoreClosing), between);
            Inv(limits, w) && w.closing
  {
    var reached := Run(limits, ttl, START, before);
    StartOk(limits);
    RunKeeps(limits, ttl, START, before);
    NextInv(limits, ttl, reached, StoreClosing);
    RunKeeps(limits, ttl, Next(limits, ttl, reached, StoreClosing), between);
    ClosingStays(limits, ttl, Next(limits, ttl, reached, StoreClosing), between);
  }

  /**
    Shutdown is terminal. In any run the flag is stored, anything may happen, and `close_all` gets the
    lock and takes the map: from then on the map is empty in every later state, even if another open
    had checked the flag before it was stored and inserts later.
  */
  lemma ShutdownIsTerminal(limits: Limits, ttl: nat, before: seq<Step>, between: seq<Step>, after: seq<Step>)
    requires Run(limits, ttl, Next(limits, ttl, Run(limits, ttl, START, before), StoreClosing), between).lock.None?
    ensures var stored := Next(limits, ttl, Run(limits, ttl, START, before), StoreClosing);
            var taken := Next(limits, ttl, Run(limits, ttl, stored, between), TakeAll);
            var w := Run(limits, ttl, taken, after);
            w.closing && w.reg.sessions == map[]
  {
    StoredStays(limits, ttl, before, between);
    TakenIsTerminal(limits, ttl, Run(limits, ttl, Next(limits, ttl, Run(limits, ttl, START, before), StoreClosing), between), after);
  }

  lemma OpeningKeepsSessions(limits: Limits, w: World, t: ThreadId, waited: nat)
    ensures DoReserve(limits, w, t).reg.sessions == w.reg.sessions
    ensures DoFail(w, t).reg.sessions == w.reg.sessions
    ensures DoLock(w, t, waited).reg.sessions == w.reg.sessions
  {
  }

  /** Nobody but the registry holds the session, and its lease has run out. */
  predicate IdleTooLong(ttl: nat, w: World, id: SessionId)
    requires id in w.reg.sessions
  {
    Refs(w, id) == 0 && w.now - w.reg.sessions[id].lastUsed > ttl
  }

  lemma GetRemovesOnly(ttl: nat, w: World, other: SessionId, p: Principal, id: SessionId)
    requires id in w.reg.sessions
    ensures id !in DoGet(ttl, w, other, p).reg.sessions <==>
            w.lock.None? && other == id && p == w.reg.sessions[id].principal && IdleTooLong(ttl, w, id)
  {
    assert Refs(w, id) > 0 <==> id in Held(w);
  }

  /** A session leaves the registry exactly by its owner's close, by shutdown, or when a sweep or its
      owner's request finds that nobody else holds it and its lease has run out. */
  lemma LeavesExactlyWhen(limits: Limits, ttl: nat, w: World, step: Step, id: SessionId)
    requires id in w.reg.sessions
    ensures id !in Next(limits, ttl, w, step).reg.sessions <==>
            && w.lock.None?
            && (|| (step.TakeAll? && w.closing)
                || step == CloseStep(id, w.reg.sessions[id].principal)
                || ((step.ReapStep? || step == GetStep(id, w.reg.sessions[id].principal)) && IdleTooLong(ttl, w, id)))
  {
    match step
    case GetStep(other, p) => GetRemovesOnly(ttl, w, other, p, id);
    case ReapStep => assert Refs(w, id) > 0 <==> id in Held(w);
    case ReserveStep(t) => OpeningKeepsSessions(limits, w, t, 0);
    case FailOpen(t) => OpeningKeepsSessions(limits, w, t, 0);
    case LockAndCheck(t, waited) => OpeningKeepsSessions(limits, w, t, waited);
    case _ =>
  }

  /** The owner's request on a session that is in flight, or not idle for too long, is always granted:
      it renews the lease and takes a reference; nobody else's request changes anything. */
  lemma GetExact(limits: Limits, ttl: nat, w: World, id: SessionId, p: Principal)
    requires w.lock.None?
    ensures id !in w.reg.sessions ==> Next(limits, ttl, w, GetStep(id, p)) == w
    ensures id in w.reg.sessions ==>
            var after := Next(limits, ttl, w, GetStep(id, p));
            var lease := w.reg.sessions[id];
            if lease.principal != p then after == w
            else if Refs(w, id) > 0 || w.now - lease.lastUsed <= ttl then
              && after.reg.sessions == w.reg.sessions[id := Lease(p, w.now)]
              && Refs(after, id) == Refs(w, id) + 1
            else
              && after.reg.sessions == w.reg.sessions - {id}
              && Refs(after, id) == 1
  {
    assert Refs(w, id) > 0 <==> id in Held(w);
  }

  /** Destruction happens once, and only to a session outside the registry that nobody holds. */
  lemma DestroyedOnce(limits: Limits, ttl: nat, steps: seq<Step>)
    ensures var w := Run(limits, ttl, START, steps);
            && (forall i, j | 0 <= i < j < |w.destroyed| :: w.destroyed[i] != w.destroyed[j])
            && (forall id: SessionId :: id in w.destroyed ==> id < w.created && id !in w.reg.sessions && Refs(w, id) == 0)
            && (forall id: SessionId | id < w.created :: id in w.destroyed || Alive(w, id))
  {
    StartOk(limits);
    RunKeeps(limits, ttl, START, steps);
    LifetimesRead(Run(limits, ttl, START, steps));
  }

  lemma LifetimesRead(w: World)
    requires Lifetimes(w)
    ensures forall id: SessionId :: id in w.destroyed ==> id < w.created && id !in w.reg.sessions && Refs(w, id) == 0
    ensures forall id: SessionId | id < w.created :: id in w.destroyed || Alive(w, id)
  {
    forall id: SessionId
      ensures id in w.destroyed ==> id < w.created && id !in w.reg.sessions && Refs(w, id) == 0
      ensures id < w.created ==> id in w.destroyed || Alive(w, id)
    {
      assert LifeOk(w, id);
    }
  }

  /** The first two actions of an open that finds room. */
  lemma OpenReserves(limits: Limits, ttl: nat, w: World, t: ThreadId, p: Principal) returns (reserved: World)
    requires w.lock.None? && !w.closing && t !in w.opens && Admits(w.reg, limits, p)
    ensures reserved == Next(limits, ttl, Next(limits, ttl, w, BeginOpen(t, p)), ReserveStep(t))
    ensures reserved == w.(reg := Reserve(w.reg, p), opens := w.opens[t := Reserved(p)])
  {
    var begun := Next(limits, ttl, w, BeginOpen(t, p));
    assert begun.opens[t := Reserved(p)] == w.opens[t := Reserved(p)];
    reserved := w.(reg := Reserve(w.reg, p), opens := w.opens[t := Reserved(p)]);
  }

  /** The last two. */
  lemma OpenLands(limits: Limits, ttl: nat, w: World, t: ThreadId, p: Principal, waited: nat) returns (after: World)
    requires w.lock.None? && !w.closing && t in w.opens && w.opens[t] == Reserved(p)
    ensures after == Next(limits, ttl, Next(limits, ttl, w, LockAndCheck(t, waited)), Insert(t))
    ensures after.reg.sessions == Release(w.reg, p).sessions[w.created := Lease(p, w.now - waited)]
    ensures after.reg.openingTotal == Release(w.reg, p).openingTotal && after.reg.openingBy == Release(w.reg, p).openingBy
    ensures after.opens == w.opens - {t} && after.lock.None?
  {
    var locked := Next(limits, ttl, w, LockAndCheck(t, waited));
    assert locked.opens - {t} == w.opens - {t};
    after := Next(limits, ttl, locked, Insert(t));
  }

  lemma ReserveThenRelease(r: Registry, p: Principal)
    ensures var after := Release(Reserve(r, p), p);
            && after.sessions == r.sessions && after.openingTotal == r.openingTotal
            && forall q :: Opening(after, q) == Opening(r, q)
  {
  }

  /** With room and no shutdown, an undisturbed open registers exactly one new session of its principal. */
  lemma UndisturbedOpenRegisters(limits: Limits, ttl: nat, w: World, t: ThreadId, p: Principal, waited: nat)
    returns (reserved: World, after: World)
    requires w.lock.None? && !w.closing && t !in w.opens
    requires |w.reg.sessions| + w.reg.openingTotal < limits.maxSessions
    requires |set id | id in w.reg.sessions && w.reg.sessions[id].principal == p| + Opening(w.reg, p) < limits.maxPerPrincipal
    ensures reserved == Next(limits, ttl, Next(limits, ttl, w, BeginOpen(t, p)), ReserveStep(t))
    ensures after == Next(limits, ttl, Next(limits, ttl, reserved, LockAndCheck(t, waited)), Insert(t))
    ensures Opening(reserved.reg, p) == Opening(w.reg, p) + 1 && reserved.reg.openingTotal == w.reg.openingTotal + 1
    ensures after.reg.sessions == w.reg.sessions[w.created := Lease(p, w.now - waited)]
    ensures after.reg.openingTotal == w.reg.openingTotal && forall q :: Opening(after.reg, q) == Opening(w.reg, q)
    ensures after.opens == w.opens && after.lock.None?
  {
    RoomAdmits(w.reg, limits, p);
    reserved := OpenReserves(limits, ttl, w, t, p);
    after := OpenLands(limits, ttl, reserved, t, p, waited);
    ReserveThenRelease(w.reg, p);
    PutAndTake(w.opens, t, Reserved(p));
  }

  lemma RoomAdmits(r: Registry, limits: Limits, p: Principal)
    requires |r.sessions| + r.openingTotal < limits.maxSessions
    requires |set id | id in r.sessions && r.sessions[id].principal == p| + Opening(r, p) < limits.maxPerPrincipal
    ensures Admits(r, limits, p)
  {
    assert Owned(r.sessions, p) == set id | id in r.sessions && r.sessions[id].principal == p;
  }

  lemma PutAndTake(opens: map<ThreadId, OpenPhase>, t: ThreadId, phase: OpenPhase)
    requires t !in opens
    ensures opens[t := phase] - {t} == opens
  {
  }

  // ---- How opens end ----

  /** The counters with one reservation of `p` less. */
  ghost predicate OneLess(before: Registry, after: Registry, p: Principal) {
    && after.sessions == before.sessions && after.openingTotal == before.openingTotal - 1
    && forall q :: Opening(after, q) == Opening(before, q) - (if q == p then 1 else 0)
  }

  /** An open whose backend failed or timed out gives exactly its own reservation back and is over. */
  lemma FailedOpenReleases(limits: Limits, ttl: nat, w: World, t: ThreadId)
    requires Inv(limits, w) && w.lock.None? && t in w.opens && w.opens[t].Reserved?
    ensures var after := Next(limits, ttl, w, FailOpen(t));
            && OneLess(w.reg, after.reg, w.opens[t].principal)
            && after.opens == w.opens - {t} && after.refs == w.refs && after.created == w.created
  {
    ReleaseExact(w, t);
  }

  /** An open that finds the flag stored or a quota full reserves nothing and is over. */
  lemma RefusedOpenLeavesNothing(limits: Limits, ttl: nat, w: World, t: ThreadId)
    requires w.lock.None? && t in w.opens && w.opens[t].Checked?
    requires var p := w.opens[t].principal;
             || w.closing
             || |w.reg.sessions| + w.reg.openingTotal >= limits.maxSessions
             || |Owned(w.reg.sessions, p)| + Opening(w.reg, p) >= limits.maxPerPrincipal
    ensures Next(limits, ttl, w, ReserveStep(t)) == w.(opens := w.opens - {t})
  {
  }

  /** An open that finds the flag stored when it has its connection gives the reservation back, registers
      nothing, and destroys its session by dropping it. */
  lemma LateOpenIsDropped(limits: Limits, ttl: nat, w: World, t: ThreadId, waited: nat)
    requires Inv(limits, w) && w.lock.None? && w.closing && t in w.opens && w.opens[t].Reserved?
    ensures var refused := Next(limits, ttl, w, LockAndCheck(t, waited));
            var after := Next(limits, ttl, refused, DropRef(w.created));
            && OneLess(w.reg, after.reg, w.opens[t].principal)
            && after.opens == w.opens - {t} && after.lock.None? && after.destroyed == w.destroyed + [w.created]
  {
    ReleaseExact(w, t);
    assert LifeOk(w, w.created);
  }

  // ---- What each action leaves alone ----

  /** A session enters the registry exactly by the insert of the open that holds it. */
  lemma EntersExactlyWhen(limits: Limits, ttl: nat, w: World, step: Step, id: SessionId)
    requires LockOk(w) && id !in w.reg.sessions
    ensures id in Next(limits, ttl, w, step).reg.sessions <==>
            step.Insert? && w.lock == Some(step.t) && w.opens[step.t].id == id
  {
    NextIs(limits, ttl, w, step);
    match step
    case ReserveStep(t) => OpeningKeepsSessions(limits, w, t, 0);
    case FailOpen(t) => OpeningKeepsSessions(limits, w, t, 0);
    case LockAndCheck(t, waited) => OpeningKeepsSessions(limits, w, t, waited);
    case _ =>
  }

  /** A lease changes only by its owner's request. */
  lemma LeaseChangesOnlyByGet(limits: Limits, ttl: nat, w: World, step: Step, id: SessionId)
    requires Lifetimes(w) && LockOk(w) && id in w.reg.sessions && id in Next(limits, ttl, w, step).reg.sessions
    requires step != GetStep(id, w.reg.sessions[id].principal)
    ensures Next(limits, ttl, w, step).reg.sessions[id] == w.reg.sessions[id]
  {
    NextIs(limits, ttl, w, step);
    match step
    case ReserveStep(t) => OpeningKeepsSessions(limits, w, t, 0);
    case FailOpen(t) => OpeningKeepsSessions(limits, w, t, 0);
    case LockAndCheck(t, waited) => OpeningKeepsSessions(limits, w, t, waited);
    case Insert(t) => if w.lock == Some(t) { InHandIsNew(w, t); }
    case _ =>
  }

  /** Dropping a reference: one less, and the session is destroyed exactly if that was the last of all. */
  lemma DropExact(limits: Limits, ttl: nat, w: World, id: SessionId)
    requires Refs(w, id) > 0
    ensures var after := Next(limits, ttl, w, DropRef(id));
            && Refs(after, id) == Refs(w, id) - 1 && after.reg == w.reg && after.opens == w.opens
            && (forall other: SessionId | other != id :: Refs(after, other) == Refs(w, other))
            && after.destroyed == (if Refs(w, id) == 1 && id !in w.reg.sessions then w.destroyed + [id] else w.destroyed)
  {
  }

  /** A session that nobody uses for longer than its lease is gone after the next sweep. */
  lemma IdleSessionIsReaped(limits: Limits, ttl: nat, w: World, id: SessionId, elapsed: nat)
    requires w.lock.None? && id in w.reg.sessions && Refs(w, id) == 0
    requires w.now + elapsed - w.reg.sessions[id].lastUsed > ttl
    ensures var after := Next(limits, ttl, Next(limits, ttl, w, Tick(elapsed)), ReapStep);
            id !in after.reg.sessions && Refs(after, id) == 1 && after.now == w.now + elapsed
  {
    LeavesExactlyWhen(limits, ttl, Next(limits, ttl, w, Tick(elapsed)), ReapStep, id);
  }
}
