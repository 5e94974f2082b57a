/**
  The weak connection pool: a map of weak entries to init-once slots, kept alive
  only by the callers that hold them, and `open_client` with its single retry.
  `WeakPool` is the code under the lock; `Next` interleaves any number of
  callers, one shared-memory action at a time.
*/
module ConnectionPool {
  import opened Prelude

  type Key = nat
  type SlotId = nat
  type CallerId = nat

  // ---- The two critical sections ----

  function Sweep(entries: map<Key, SlotId>, live: set<SlotId>): map<Key, SlotId> {
    map k | k in entries && entries[k] in live :: entries[k]
  }

  /** Sweep dead entries, then upgrade the entry of `key` or register a new slot. */
  function Acquire(entries: map<Key, SlotId>, live: set<SlotId>, key: Key, unused: SlotId): (map<Key, SlotId>, SlotId) {
    var swept := Sweep(entries, live);
    if key in swept then (swept, swept[key]) else (swept[key := unused], unused)
  }

  /** Remove the entry of `key` only if it still is the expected slot. */
  function Evict(entries: map<Key, SlotId>, live: set<SlotId>, key: Key, expected: SlotId): map<Key, SlotId> {
    if key in entries && entries[key] in live && entries[key] == expected then entries - {key} else entries
  }

  class WeakPool {
    var entries: map<Key, SlotId>

    constructor ()
      ensures entries == map[]
    {
      entries := map[];
    }

    /** The locked half of `acquire`; `live` are the slots with a strong count above zero. */
    method AcquireSlot(key: Key, live: set<SlotId>, unused: SlotId) returns (slot: SlotId)
      modifies this
      ensures (entries, slot) == Acquire(old(entries), live, key, unused)
    {
      var todo := entries.Keys;
      while todo != {}
        invariant entries.Keys <= old(entries).Keys && todo <= old(entries).Keys
        invariant forall k | k in old(entries) ::
                    k in entries <==> k in todo || old(entries)[k] in live
        invariant forall k | k in entries :: entries[k] == old(entries)[k]
        decreases |todo|
      {
        var k :| k in todo;
        todo := todo - {k};
        if entries[k] !in live {
          entries := entries - {k};
        }
      }
      assert entries == Sweep(old(entries), live);
      if key in entries {
        slot := entries[key];
      } else {
        slot := unused;
        entries := entries[key := unused];
      }
    }

    method Invalidate(key: Key, expected: SlotId, live: set<SlotId>)
      modifies this
      ensures entries == Evict(old(entries), live, key, expected)
    {
      if key in entries && entries[key] in live {
        var slot := entries[key];
        if slot == expected {
          entries := entries - {key};
        }
      }
    }
  }

  // ---- All callers together ----

  /** A slot's OnceLock. */
  datatype Cell = Empty | Busy(runner: CallerId) | Ready | Bad

  /** `runs` counts initializer runs and `invalidated` remembers explicit invalidation: both are history. */
  datatype Slot = Slot(key: Key, cell: Cell, runs: nat, invalidated: bool)

  /** Where a call of `open_client` stands; every phase with a slot owns a strong reference to it. */
  datatype Phase =
    | Starting
    | Holding(slot: SlotId)
    | Initializing(slot: SlotId)
    | Opening(slot: SlotId)
    | Evicting(slot: SlotId)
    | Dropping(slot: SlotId)
    | Leased(slot: SlotId)
    | Returned

  datatype Caller = Caller(key: Key, attempt: nat, phase: Phase, failed: Option<SlotId>)

  datatype Pool = Pool(entries: map<Key, SlotId>, slots: seq<Slot>, callers: map<CallerId, Caller>)

  const EMPTY: Pool := Pool(map[], [], map[])

  predicate Holds(c: Caller) {
    !c.phase.Starting? && !c.phase.Returned?
  }

  function Live(callers: map<CallerId, Caller>): set<SlotId> {
    set t | t in callers && Holds(callers[t]) :: callers[t].phase.slot
  }

  datatype Step =
    | Call(t: CallerId, key: Key)
    | AcquireStep(t: CallerId)
    | BeginInit(t: CallerId)
    | EndInit(t: CallerId, ok: bool)
    | Observe(t: CallerId)
    | OpenStream(t: CallerId, ok: bool)
    | InvalidateStep(t: CallerId)
    | DropSlot(t: CallerId)
    | Release(t: CallerId)

  function Move(p: Pool, t: CallerId, phase: Phase): Pool
    requires t in p.callers
  {
    p.(callers := p.callers[t := p.callers[t].(phase := phase)])
  }

  /** The locked half of `acquire`. */
  function DoAcquire(p: Pool, t: CallerId): Pool
    requires t in p.callers && p.callers[t].phase.Starting?
  {
    var c := p.callers[t];
    var (entries, slot) := Acquire(p.entries, Live(p.callers), c.key, |p.slots|);
    var slots := if slot == |p.slots| then p.slots + [Slot(c.key, Empty, 0, false)] else p.slots;
    Move(p.(entries := entries, slots := slots), t, Holding(slot))
  }

  /** `get_or_init`, first caller only: the initializer starts. */
  function DoBeginInit(p: Pool, t: CallerId): Pool
    requires t in p.callers && p.callers[t].phase.Holding?
  {
    var s := p.callers[t].phase.slot;
    if s >= |p.slots| || !p.slots[s].cell.Empty? then p
    else
      var slot := p.slots[s].(cell := Busy(t), runs := p.slots[s].runs + 1);
      Move(p.(slots := p.slots[s := slot]), t, Initializing(s))
  }

  /** The initializer returns and sets the slot; a failure is returned at once, dropping the slot. */
  function DoEndInit(p: Pool, t: CallerId, ok: bool): Pool
    requires t in p.callers && p.callers[t].phase.Initializing?
  {
    var s := p.callers[t].phase.slot;
    if s >= |p.slots| then p
    else
      var slot := p.slots[s].(cell := if ok then Ready else Bad);
      Move(p.(slots := p.slots[s := slot]), t, if ok then Opening(s) else Returned)
  }

  /** `get_or_init` of everybody else waits while the initializer runs and then sees its outcome. */
  function DoObserve(p: Pool, t: CallerId): Pool
    requires t in p.callers && p.callers[t].phase.Holding?
  {
    var s := p.callers[t].phase.slot;
    if s >= |p.slots| then p
    else
      match p.slots[s].cell
      case Ready => Move(p, t, Opening(s))
      case Bad => Move(p, t, Returned)
      case _ => p
  }

  function DoInvalidate(p: Pool, t: CallerId): Pool
    requires t in p.callers && p.callers[t].phase.Evicting?
  {
    var c := p.callers[t];
    var s := c.phase.slot;
    var entries := Evict(p.entries, Live(p.callers), c.key, s);
    var slots := if s < |p.slots| then p.slots[s := p.slots[s].(invalidated := true)] else p.slots;
    Move(p.(entries := entries, slots := slots), t, Dropping(s))
  }

  /** One action. An action that is not enabled changes nothing, so every list of actions is a run. */
  function Next(p: Pool, step: Step): Pool {
    if step.Call? then
      if step.t in p.callers then p
      else p.(callers := p.callers[step.t := Caller(step.key, 0, Starting, None)])
    else if step.t !in p.callers then p
    else
      var c := p.callers[step.t];
      match (step, c.phase)
      case (AcquireStep(t), Starting) => DoAcquire(p, t)
      case (BeginInit(t), Holding(_)) => DoBeginInit(p, t)
      case (EndInit(t, ok), Initializing(_)) => DoEndInit(p, t, ok)
      case (Observe(t), Holding(_)) => DoObserve(p, t)
      case (OpenStream(t, ok), Opening(slot)) =>
        Move(p, t, if ok then Leased(slot) else if c.attempt == 0 then Evicting(slot) else Returned)
      case (InvalidateStep(t), Evicting(_)) => DoInvalidate(p, t)
      case (DropSlot(t), Dropping(slot)) =>
        p.(callers := p.callers[t := Caller(c.key, 1, Starting, Some(slot))])
      case (Release(t), Leased(_)) => Move(p, t, Returned)
      case _ => p
  }

  function Run(p: Pool, steps: seq<Step>): Pool {
    if steps == [] then p else Next(Run(p, steps[..|steps| - 1]), steps[|steps| - 1])
  }

  // ---- What every run keeps ----

  ghost predicate EntryOk(p: Pool, k: Key)
    requires k in p.entries
  {
    var s := p.entries[k];
    s < |p.slots| && p.slots[s].key == k && !p.slots[s].invalidated
  }

  ghost predicate SlotOk(p: Pool, s: SlotId)
    requires s < |p.slots|
  {
    var slot := p.slots[s];
    && slot.runs == (if slot.cell.Empty? then 0 else 1)
    && (slot.cell.Busy? ==>
          slot.cell.runner in p.callers && p.callers[slot.cell.runner].phase == Initializing(s))
  }

  ghost predicate CallerOk(p: Pool, t: CallerId)
    requires t in p.callers
  {
    var c := p.callers[t];
    && c.attempt <= 1
    && (c.phase.Evicting? || c.phase.Dropping? ==> c.attempt == 0)
    && (c.attempt == 1 ==> c.failed.Some? && c.failed.value < |p.slots| && p.slots[c.failed.value].invalidated)
    && (Holds(c) ==>
          && c.phase.slot < |p.slots|
          && p.slots[c.phase.slot].key == c.key
          && (p.slots[c.phase.slot].invalidated || (c.key in p.entries && p.entries[c.key] == c.phase.slot))
          && (c.attempt == 1 ==> c.phase.slot != c.failed.value)
          && (c.phase.Initializing? ==> p.slots[c.phase.slot].cell == Busy(t))
          && (c.phase.Opening? || c.phase.Evicting? || c.phase.Dropping? || c.phase.Leased? ==>
                p.slots[c.phase.slot].cell == Ready)
          && (c.phase.Dropping? ==> p.slots[c.phase.slot].invalidated))
  }

  ghost predicate Inv(p: Pool) {
    && (forall k | k in p.entries :: EntryOk(p, k))
    && (forall s: nat | s < |p.slots| :: SlotOk(p, s))
    && (forall t | t in p.callers :: CallerOk(p, t))
  }

  lemma AcquireKeeps(p: Pool, t: CallerId)
    requires Inv(p) && t in p.callers && p.callers[t].phase.Starting?
    ensures Inv(DoAcquire(p, t))
  {
    var c := p.callers[t];
    var q := DoAcquire(p, t);
    assert c.key in p.entries ==> EntryOk(p, c.key);
    forall k | k in q.entries ensures EntryOk(q, k) { assert k in p.entries ==> EntryOk(p, k); }
    forall s: nat | s < |q.slots| ensures SlotOk(q, s) { assert s < |p.slots| ==> SlotOk(p, s); }
    forall u | u in q.callers
      ensures CallerOk(q, u)
    {
      assert CallerOk(p, u);
      if u != t && Holds(q.callers[u]) {
        assert q.callers[u].phase.slot in Live(p.callers);
      }
    }
  }

  lemma BeginInitKeeps(p: Pool, t: CallerId)
    requires Inv(p) && t in p.callers && p.callers[t].phase.Holding?
    ensures Inv(DoBeginInit(p, t))
  {
    var q := DoBeginInit(p, t);
    assert CallerOk(p, t);
    forall k | k in q.entries ensures EntryOk(q, k) { assert EntryOk(p, k); }
    forall s: nat | s < |q.slots| ensures SlotOk(q, s) { assert SlotOk(p, s); }
    forall u | u in q.callers ensures CallerOk(q, u) { assert CallerOk(p, u); }
  }

  lemma EndInitKeeps(p: Pool, t: CallerId, ok: bool)
    requires Inv(p) && t in p.callers && p.callers[t].phase.Initializing?
    ensures Inv(DoEndInit(p, t, ok))
  {
    var q := DoEndInit(p, t, ok);
    assert CallerOk(p, t);
    forall k | k in q.entries ensures EntryOk(q, k) { assert EntryOk(p, k); }
    forall s: nat | s < |q.slots| ensures SlotOk(q, s) { assert SlotOk(p, s); }
    forall u | u in q.callers ensures CallerOk(q, u) { assert CallerOk(p, u); }
  }

  lemma InvalidateKeeps(p: Pool, t: CallerId)
    requires Inv(p) && t in p.callers && p.callers[t].phase.Evicting?
    ensures Inv(DoInvalidate(p, t))
  {
    var q := DoInvalidate(p, t);
    assert CallerOk(p, t);
    assert p.callers[t].phase.slot in Live(p.callers);
    forall k | k in q.entries ensures EntryOk(q, k) { assert EntryOk(p, k); }
    forall s: nat | s < |q.slots| ensures SlotOk(q, s) { assert SlotOk(p, s); }
    forall u | u in q.callers ensures CallerOk(q, u) { assert CallerOk(p, u); }
  }

  /** Replacing the record of one caller that runs no initializer disturbs nobody else. */
  lemma CallerMoves(p: Pool, t: CallerId, c: Caller)
    requires Inv(p)
    requires t in p.callers ==> !p.callers[t].phase.Initializing?
    requires CallerOk(p.(callers := p.callers[t := c]), t)
    ensures Inv(p.(callers := p.callers[t := c]))
  {
    var q := p.(callers := p.callers[t := c]);
    forall k | k in q.entries ensures EntryOk(q, k) { assert EntryOk(p, k); }
    forall s: nat | s < |q.slots| ensures SlotOk(q, s) { assert SlotOk(p, s); }
    forall u | u in q.callers ensures CallerOk(q, u) { assert u != t ==> CallerOk(p, u); }
  }

  lemma PhaseMoves(p: Pool, t: CallerId, phase: Phase)
    requires Inv(p) && t in p.callers && !p.callers[t].phase.Initializing?
    requires CallerOk(Move(p, t, phase), t)
    ensures Inv(Move(p, t, phase))
  {
    CallerMoves(p, t, p.callers[t].(phase := phase));
  }

  lemma NextKeeps(p: Pool, step: Step)
    requires Inv(p)
    ensures Inv(Next(p, step))
  {
    if step.t in p.callers { assert CallerOk(p, step.t); }
    match step
    case AcquireStep(t) =>
      if t in p.callers && p.callers[t].phase.Starting? { AcquireKeeps(p, t); }
    case BeginInit(t) =>
      if t in p.callers && p.callers[t].phase.Holding? { BeginInitKeeps(p, t); }
    case EndInit(t, ok) =>
      if t in p.callers && p.callers[t].phase.Initializing? { EndInitKeeps(p, t, ok); }
    case InvalidateStep(t) =>
      if t in p.callers && p.callers[t].phase.Evicting? { InvalidateKeeps(p, t); }
    case Call(t, key) =>
      if t !in p.callers { CallerMoves(p, t, Caller(key, 0, Starting, None)); }
    case Observe(t) =>
      if t in p.callers && p.callers[t].phase.Holding? {
        var slot := p.callers[t].phase.slot;
        if p.slots[slot].cell.Ready? { PhaseMoves(p, t, Opening(slot)); }
        if p.slots[slot].cell.Bad? { PhaseMoves(p, t, Returned); }
      }
    case OpenStream(t, ok) =>
      if t in p.callers && p.callers[t].phase.Opening? {
        var slot := p.callers[t].phase.slot;
        PhaseMoves(p, t, if ok then Leased(slot) else if p.callers[t].attempt == 0 then Evicting(slot) else Returned);
      }
    case DropSlot(t) =>
      if t in p.callers && p.callers[t].phase.Dropping? {
        CallerMoves(p, t, Caller(p.callers[t].key, 1, Starting, Some(p.callers[t].phase.slot)));
      }
    case Release(t) =>
      if t in p.callers && p.callers[t].phase.Leased? { PhaseMoves(p, t, Returned); }
  }

  lemma {:induction false} RunKeeps(p: Pool, steps: seq<Step>)
    requires Inv(p)
    ensures Inv(Run(p, steps))
  {
    if steps != [] {
      RunKeeps(p, steps[..|steps| - 1]);
      NextKeeps(Run(p, steps[..|steps| - 1]), steps[|steps| - 1]);
    }
  }

  /**
    Pool safety in every interleaving: an initializer runs at most once per slot; a slot somebody holds
    is the registered slot of its key or was explicitly invalidated, so two live slots of one key
    cannot both be valid; nobody opens a stream on a slot that is not initialized; and the second
    attempt of `open_client` never holds the slot whose stream failed.
  */
  lemma PoolSafety(steps: seq<Step>)
    ensures var p := Run(EMPTY, steps);
            && (forall s: nat | s < |p.slots| :: p.slots[s].runs <= 1)
            && (forall t | t in p.callers && Holds(p.callers[t]) ::
                  var c := p.callers[t];
                  && c.phase.slot < |p.slots| && p.slots[c.phase.slot].key == c.key
                  && (p.slots[c.phase.slot].invalidated || (c.key in p.entries && p.entries[c.key] == c.phase.slot))
                  && (c.phase.Leased? ==> p.slots[c.phase.slot].cell == Ready)
                  && (c.attempt == 1 ==> Some(c.phase.slot) != c.failed))
            && (forall t, u | t in p.callers && u in p.callers && Holds(p.callers[t]) && Holds(p.callers[u])
                              && p.callers[t].key == p.callers[u].key ::
                  || p.callers[t].phase.slot == p.callers[u].phase.slot
                  || p.slots[p.callers[t].phase.slot].invalidated
                  || p.slots[p.callers[u].phase.slot].invalidated)
  {
    RunKeeps(EMPTY, steps);
    var p := Run(EMPTY, steps);
    forall s: nat | s < |p.slots| ensures p.slots[s].runs <= 1 { assert SlotOk(p, s); }
    forall t | t in p.callers ensures CallerOk(p, t) { }
  }

  /** Invalidation removes at most the entry of its own key, and only while that entry is the caller's slot. */
  lemma InvalidationIsPrecise(p: Pool, t: CallerId)
    requires Inv(p) && t in p.callers && p.callers[t].phase.Evicting?
    ensures var c := p.callers[t];
            var q := Next(p, InvalidateStep(t));
            && q.entries == (if c.key in p.entries && p.entries[c.key] == c.phase.slot
                             then p.entries - {c.key} else p.entries)
            && q.slots[c.phase.slot].invalidated
            && (forall s: nat | s < |p.slots| && s != c.phase.slot :: q.slots[s] == p.slots[s])
  {
    assert CallerOk(p, t);
    assert p.callers[t].phase.slot in Live(p.callers);
  }

  /** A key nobody holds is open again: the next acquirer gets a new, uninitialized slot,
      whatever became of the previous one, so a failed initialization does not poison the key. */
  lemma UnheldKeyStartsOver(p: Pool, t: CallerId)
    requires Inv(p) && t in p.callers && p.callers[t].phase.Starting?
    requires forall u | u in p.callers && Holds(p.callers[u]) :: p.callers[u].key != p.callers[t].key
    ensures var q := Next(p, AcquireStep(t));
            && q.callers[t].phase == Holding(|p.slots|)
            && q.slots == p.slots + [Slot(p.callers[t].key, Empty, 0, false)]
            && q.entries[p.callers[t].key] == |p.slots|
  {
    var key := p.callers[t].key;
    assert key in p.entries ==> EntryOk(p, key);
    assert forall u | u in p.callers :: CallerOk(p, u);
  }

  /** And a key with a valid live slot is shared: acquiring returns that slot and creates none. */
  lemma HeldKeyIsShared(p: Pool, t: CallerId, u: CallerId)
    requires Inv(p) && t in p.callers && p.callers[t].phase.Starting?
    requires u in p.callers && Holds(p.callers[u]) && p.callers[u].key == p.callers[t].key
    requires !p.slots[p.callers[u].phase.slot].invalidated
    ensures var q := Next(p, AcquireStep(t));
            q.callers[t].phase == Holding(p.callers[u].phase.slot) && q.slots == p.slots
  {
    assert CallerOk(p, u);
    assert p.callers[u].phase.slot in Live(p.callers);
  }

  ghost predicate Settled(cell: Cell) {
    cell.Ready? || cell.Bad?
  }

  lemma CellSettles(p: Pool, step: Step, s: SlotId)
    requires Inv(p) && s < |p.slots|
    ensures var q := Next(p, step);
            && s < |q.slots|
            && q.slots[s].key == p.slots[s].key
            && (p.slots[s].invalidated ==> q.slots[s].invalidated)
            && (Settled(p.slots[s].cell) ==> q.slots[s].cell == p.slots[s].cell)
  {
    if step.t in p.callers {
      assert CallerOk(p, step.t);
      assert SlotOk(p, s);
    }
  }

  /** A slot is set once: its outcome and its invalidation survive every later action. */
  lemma {:induction false} SlotsAreSetOnce(p: Pool, steps: seq<Step>, s: SlotId)
    requires Inv(p) && s < |p.slots|
    ensures var q := Run(p, steps);
            && s < |q.slots|
            && q.slots[s].key == p.slots[s].key
            && (p.slots[s].invalidated ==> q.slots[s].invalidated)
            && (Settled(p.slots[s].cell) ==> q.slots[s].cell == p.slots[s].cell)
  {
    if steps != [] {
      var n := |steps| - 1;
      SlotsAreSetOnce(p, steps[..n], s);
      RunKeeps(p, steps[..n]);
      CellSettles(Run(p, steps[..n]), steps[n], s);
    }
  }

  /** An invalidated slot is never handed out again, in any later state. */
  lemma InvalidatedNeverReturns(p: Pool, steps: seq<Step>, s: SlotId, t: CallerId)
    requires Inv(p) && s < |p.slots| && p.slots[s].invalidated
    requires var q := Run(p, steps); t in q.callers && q.callers[t].phase.Starting?
    ensures Next(Run(p, steps), AcquireStep(t)).callers[t].phase != Holding(s)
  {
    var q := Run(p, steps);
    RunKeeps(p, steps);
    SlotsAreSetOnce(p, steps, s);
    var key := q.callers[t].key;
    if key in q.entries { assert EntryOk(q, key); }
  }

  // ---- What every call comes to ----

  /** Only the acting caller moves. */
  lemma OthersStay(p: Pool, step: Step, u: CallerId)
    requires u != step.t
    ensures var q := Next(p, step);
            (u in q.callers <==> u in p.callers) && (u in p.callers ==> q.callers[u] == p.callers[u])
  {
  }

  /** A call ends without a connection exactly if an initializer failed or its second stream failed, and
      gives a connection back exactly by releasing it. */
  lemma ReturnsExactlyWhen(p: Pool, step: Step, t: CallerId)
    requires Inv(p) && t in p.callers && !p.callers[t].phase.Returned?
    ensures var c := p.callers[t];
            var q := Next(p, step);
            t in q.callers &&
            (q.callers[t].phase.Returned? <==>
              || (step == EndInit(t, false) && c.phase.Initializing?)
              || (step == Observe(t) && c.phase.Holding? && p.slots[c.phase.slot].cell.Bad?)
              || (step == OpenStream(t, false) && c.phase.Opening? && c.attempt == 1)
              || (step == Release(t) && c.phase.Leased?))
  {
    assert CallerOk(p, t);
    if step.t != t { OthersStay(p, step, t); }
  }

  /** A call has a connection exactly once it has opened a stream on the slot it holds. */
  lemma LeasesExactlyWhen(p: Pool, step: Step, t: CallerId)
    requires Inv(p) && t in p.callers && !p.callers[t].phase.Leased?
    ensures var c := p.callers[t];
            var q := Next(p, step);
            && t in q.callers
            && (q.callers[t].phase.Leased? <==> step == OpenStream(t, true) && c.phase.Opening?)
            && (q.callers[t].phase.Leased? ==> q.callers[t].phase.slot == c.phase.slot && p.slots[c.phase.slot].cell == Ready)
  {
    assert CallerOk(p, t);
    if step.t != t { OthersStay(p, step, t); }
  }

  lemma FailedStreamEvicts(p: Pool, t: CallerId)
    requires Inv(p) && t in p.callers && p.callers[t].phase.Opening? && p.callers[t].attempt == 0
    ensures var c := p.callers[t];
            var q := Next(Next(p, OpenStream(t, false)), InvalidateStep(t));
            && Inv(q) && t in q.callers && q.callers[t] == Caller(c.key, 0, Dropping(c.phase.slot), c.failed)
            && c.phase.slot < |q.slots| && q.slots[c.phase.slot].invalidated
            && (c.key in q.entries ==> q.entries[c.key] != c.phase.slot)
  {
    var c := p.callers[t];
    assert CallerOk(p, t);
    var failed := Next(p, OpenStream(t, false));
    NextKeeps(p, OpenStream(t, false));
    NextKeeps(failed, InvalidateStep(t));
    InvalidationIsPrecise(failed, t);
  }

  /** A first stream that fails is retried, on another slot: the failed one is invalidated and no longer registered. */
  lemma FailedStreamRetries(p: Pool, t: CallerId)
    requires Inv(p) && t in p.callers && p.callers[t].phase.Opening? && p.callers[t].attempt == 0
    ensures var c := p.callers[t];
            var evicted := Next(Next(p, OpenStream(t, false)), InvalidateStep(t));
            var q := Next(Next(evicted, DropSlot(t)), AcquireStep(t));
            && t in q.callers && q.callers[t].phase.Holding? && q.callers[t].attempt == 1 && q.callers[t].key == c.key
            && q.callers[t].phase.slot != c.phase.slot
            && c.phase.slot < |q.slots| && q.slots[c.phase.slot].invalidated
            && c.key in q.entries && q.entries[c.key] == q.callers[t].phase.slot
  {
    var evicted := Next(Next(p, OpenStream(t, false)), InvalidateStep(t));
    FailedStreamEvicts(p, t);
    var dropped := Next(evicted, DropSlot(t));
    NextKeeps(evicted, DropSlot(t));
    NextKeeps(dropped, AcquireStep(t));
    var q := Next(dropped, AcquireStep(t));
    assert CallerOk(q, t);
    AcquiredIsRegistered(dropped, t);
    CellSettles(dropped, AcquireStep(t), p.callers[t].phase.slot);
  }

  /** Acquiring leaves the caller with the registered slot of its key, and no entry of a slot that nobody holds. */
  lemma AcquiredIsRegistered(p: Pool, t: CallerId)
    requires Inv(p) && t in p.callers && p.callers[t].phase.Starting?
    ensures var q := Next(p, AcquireStep(t));
            && t in q.callers && q.callers[t] == p.callers[t].(phase := q.callers[t].phase) && q.callers[t].phase.Holding?
            && p.callers[t].key in q.entries && q.entries[p.callers[t].key] == q.callers[t].phase.slot
            && (forall k | k in q.entries :: q.entries[k] in Live(q.callers))
  {
    var q := Next(p, AcquireStep(t));
    forall k | k in q.entries
      ensures q.entries[k] in Live(q.callers)
    {
      if k == p.callers[t].key {
        assert Holds(q.callers[t]) && q.callers[t].phase.slot == q.entries[k];
      } else {
        assert q.entries[k] in Live(p.callers);
        var u :| u in p.callers && Holds(p.callers[u]) && p.callers[u].phase.slot == q.entries[k];
        assert u != t && Holds(q.callers[u]);
      }
    }
  }

  /** The outcome of the initializer is everybody's: whoever holds the slot goes on or returns with it. */
  lemma InitializerDecides(p: Pool, t: CallerId, u: CallerId, ok: bool)
    requires Inv(p) && t in p.callers && p.callers[t].phase.Initializing?
    requires u in p.callers && p.callers[u].phase == Holding(p.callers[t].phase.slot)
    ensures var slot := p.callers[t].phase.slot;
            var q := Next(Next(p, EndInit(t, ok)), Observe(u));
            && q.slots[slot].cell == (if ok then Ready else Bad)
            && q.callers[t].phase == (if ok then Opening(slot) else Returned)
            && q.callers[u].phase == (if ok then Opening(slot) else Returned)
  {
    assert CallerOk(p, t) && CallerOk(p, u);
  }

  /** While it runs, everybody else waits. */
  lemma OthersWaitForInitializer(p: Pool, t: CallerId, u: CallerId)
    requires Inv(p) && t in p.callers && p.callers[t].phase.Initializing?
    requires u in p.callers && p.callers[u].phase == Holding(p.callers[t].phase.slot)
    ensures Next(p, Observe(u)) == p && Next(p, BeginInit(u)) == p
  {
    assert CallerOk(p, t) && CallerOk(p, u);
  }

  /** A call for a key that nobody holds, with a good initializer and a good stream, ends with a lease on a new slot. */
  lemma FreshCallLeases(p: Pool, t: CallerId, key: Key)
    requires Inv(p) && t !in p.callers
    requires forall u | u in p.callers && Holds(p.callers[u]) :: p.callers[u].key != key
    ensures var held := Next(Next(p, Call(t, key)), AcquireStep(t));
            var q := Next(Next(Next(held, BeginInit(t)), EndInit(t, true)), OpenStream(t, true));
            && t in q.callers && q.callers[t] == Caller(key, 0, Leased(|p.slots|), None)
            && q.slots == p.slots + [Slot(key, Ready, 1, false)]
            && key in q.entries && q.entries[key] == |p.slots|
  {
    var called := Next(p, Call(t, key));
    NextKeeps(p, Call(t, key));
    UnheldKeyStartsOver(called, t);
    var held := Next(called, AcquireStep(t));
    assert held.slots[|p.slots|] == Slot(key, Empty, 0, false);
  }

  /** A call for a key with a valid initialized slot and a good stream shares it: no initializer runs. */
  lemma SharedCallLeases(p: Pool, t: CallerId, u: CallerId)
    requires Inv(p) && t !in p.callers && u in p.callers && Holds(p.callers[u])
    requires p.slots[p.callers[u].phase.slot].cell == Ready && !p.slots[p.callers[u].phase.slot].invalidated
    ensures var held := Next(Next(p, Call(t, p.callers[u].key)), AcquireStep(t));
            var q := Next(Next(held, Observe(t)), OpenStream(t, true));
            && t in q.callers && q.callers[t] == Caller(p.callers[u].key, 0, Leased(p.callers[u].phase.slot), None)
            && q.slots == p.slots
  {
    assert CallerOk(p, u);
    var called := Next(p, Call(t, p.callers[u].key));
    NextKeeps(p, Call(t, p.callers[u].key));
    HeldKeyIsShared(called, t, u);
  }
}
