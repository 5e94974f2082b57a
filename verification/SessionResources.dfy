/**
  The statement and result registries of one session. `Apply` is what each
  operation means; `Resources` is the code that runs on the session worker.
*/
module SessionResources {
  import opened Prelude

  type StatementId = nat

  datatype Limits = Limits(maxStatements: nat, maxResults: nat)

  /** A result remembers the statement it came from, if any. `nextId` stands for fresh identifiers. */
  datatype Handles = Handles(statements: set<StatementId>, results: map<nat, Option<StatementId>>, nextId: nat)

  /** The operations that run on the worker; `ok` is the backend's own outcome. */
  datatype Op =
    | NewStatement(ok: bool)
    | RemoveStatement(statement: StatementId)
    | UseStatement(statement: StatementId, ok: bool)
    | Invalidate(statement: StatementId)
    | InsertResult(owner: Option<StatementId>)
    | ReadResult(result: nat)
    | CloseResult(result: nat)

  datatype Reply = Done | Handle(id: nat) | Missing | OverQuota | BackendError

  /** A reply that is not an error. */
  predicate Good(reply: Reply) {
    reply.Done? || reply.Handle?
  }

  /** The results of `statement`. */
  function Owned(h: Handles, statement: StatementId): set<nat> {
    set id | id in h.results && h.results[id] == Some(statement)
  }

  function Apply(limits: Limits, h: Handles, op: Op): (Handles, Reply) {
    match op
    case NewStatement(ok) =>
      if |h.statements| >= limits.maxStatements then (h, OverQuota)
      else if !ok then (h, BackendError)
      else (h.(statements := h.statements + {h.nextId}, nextId := h.nextId + 1), Handle(h.nextId))
    case RemoveStatement(s) =>
      if s !in h.statements then (h, Missing) else (h.(statements := h.statements - {s}), Done)
    case UseStatement(s, ok) =>
      (h, if s !in h.statements then Missing else if ok then Done else BackendError)
    case Invalidate(s) =>
      (h.(results := h.results - Owned(h, s)), Done)
    case InsertResult(owner) =>
      if |h.results| >= limits.maxResults then (h.(nextId := h.nextId + 1), OverQuota)
      else (h.(results := h.results[h.nextId := owner], nextId := h.nextId + 1), Handle(h.nextId))
    case ReadResult(id) =>
      (h, if id in h.results then Done else Missing)
    case CloseResult(id) =>
      if id !in h.results then (h, Missing) else (h.(results := h.results - {id}), Done)
  }

  /** The state left by a list of operations. */
  function ApplyAll(limits: Limits, h: Handles, ops: seq<Op>): Handles {
    if ops == [] then h else Apply(limits, ApplyAll(limits, h, ops[..|ops| - 1]), ops[|ops| - 1]).0
  }

  const NO_HANDLES: Handles := Handles({}, map[], 0)

  class Resources {
    const limits: Limits
    var statements: set<StatementId>
    var results: map<nat, Option<StatementId>>
    var nextId: nat

    function State(): Handles
      reads this
    {
      Handles(statements, results, nextId)
    }

    constructor (limits: Limits)
      ensures this.limits == limits && State() == NO_HANDLES
    {
      this.limits := limits;
      statements, results, nextId := {}, map[], 0;
    }

    /** A new identifier, as unique as the source's random ones are taken to be. */
    method FreshId() returns (id: nat)
      modifies this`nextId
      ensures id == old(nextId) && nextId == old(nextId) + 1
    {
      id := nextId;
      nextId := nextId + 1;
    }

    method NewStatement(ok: bool) returns (reply: Reply)
      modifies this`statements, this`nextId
      ensures (State(), reply) == Apply(limits, old(State()), Op.NewStatement(ok))
      ensures reply.OverQuota? <==> |old(statements)| >= limits.maxStatements
      ensures reply.BackendError? <==> |old(statements)| < limits.maxStatements && !ok
      ensures reply.Handle? <==> |old(statements)| < limits.maxStatements && ok
      ensures statements == if reply.Handle? then old(statements) + {reply.id} else old(statements)
    {
      if |statements| >= limits.maxStatements {
        return OverQuota;
      }
      if !ok {
        return BackendError;
      }
      var id := FreshId();
      statements := statements + {id};
      return Handle(id);
    }

    /** The worker half of `close_statement`. */
    method RemoveStatement(statement: StatementId) returns (reply: Reply)
      modifies this`statements
      ensures (State(), reply) == Apply(limits, old(State()), Op.RemoveStatement(statement))
      ensures reply == if statement in old(statements) then Done else Missing
      ensures statements == old(statements) - {statement}
    {
      if statement !in statements {
        return Missing;
      }
      statements := statements - {statement};
      return Done;
    }

    /** The lookup of `with_statement`; `ok` is what the statement itself answers. */
    method UseStatement(statement: StatementId, ok: bool) returns (reply: Reply)
      ensures (State(), reply) == Apply(limits, State(), Op.UseStatement(statement, ok))
      ensures reply == if statement !in statements then Missing else if ok then Done else BackendError
    {
      if statement !in statements {
        return Missing;
      }
      return if ok then Done else BackendError;
    }

    /** The lookup of `result_schema` and `next_result`. */
    method ReadResult(id: nat) returns (reply: Reply)
      ensures (State(), reply) == Apply(limits, State(), Op.ReadResult(id))
      ensures reply == if id in results then Done else Missing
    {
      return if id in results then Done else Missing;
    }

    /** `invalidate_statement_results`: keep the results of other owners. */
    method InvalidateResults(statement: StatementId) returns (reply: Reply)
      modifies this`results
      ensures (State(), reply) == Apply(limits, old(State()), Invalidate(statement))
      ensures reply == Done
      ensures results == map id | id in old(results) && old(results)[id] != Some(statement) :: old(results)[id]
    {
      var todo := results.Keys;
      while todo != {}
        invariant results.Keys <= old(results).Keys && todo <= old(results).Keys
        invariant forall id | id in old(results) ::
                    id in results <==> id in todo || old(results)[id] != Some(statement)
        invariant forall id | id in results :: results[id] == old(results)[id]
        decreases |todo|
      {
        var id :| id in todo;
        todo := todo - {id};
        if results[id] == Some(statement) {
          results := results - {id};
        }
      }
      assert results == old(results) - Owned(old(State()), statement);
      return Done;
    }

    /** `insert_owned_result`: the identifier is drawn before the quota is checked. */
    method InsertOwnedResult(owner: Option<StatementId>) returns (reply: Reply)
      modifies this`results, this`nextId
      ensures (State(), reply) == Apply(limits, old(State()), InsertResult(owner))
      ensures reply.OverQuota? <==> |old(results)| >= limits.maxResults
      ensures reply.Handle? <==> |old(results)| < limits.maxResults
      ensures results == if reply.Handle? then old(results)[reply.id := owner] else old(results)
    {
      var id := FreshId();
      if |results| >= limits.maxResults {
        return OverQuota;
      }
      results := results[id := owner];
      return Handle(id);
    }

    method CloseResult(id: nat) returns (reply: Reply)
      modifies this`results
      ensures (State(), reply) == Apply(limits, old(State()), Op.CloseResult(id))
      ensures reply == if id in old(results) then Done else Missing
      ensures results == old(results) - {id}
    {
      if id !in results {
        return Missing;
      }
      results := results - {id};
      return Done;
    }
  }

  // ---- Quotas ----

  /** Counts within quota, and every identifier in use is older than the next one. */
  ghost predicate HandlesOk(limits: Limits, h: Handles) {
    && |h.statements| <= limits.maxStatements
    && |h.results| <= limits.maxResults
    && (forall s | s in h.statements :: s < h.nextId)
    && (forall id | id in h.results :: id < h.nextId)
  }

  lemma ResultsShrink(h: Handles, ids: set<nat>)
    ensures |h.results - ids| <= |h.results|
  {
    Subset((h.results - ids).Keys, h.results.Keys);
  }

  lemma ResultsGrow(h: Handles, owner: Option<StatementId>)
    ensures |h.results[h.nextId := owner]| <= |h.results| + 1
  {
    assert h.results[h.nextId := owner].Keys == h.results.Keys + {h.nextId};
  }

  lemma StatementsChange(h: Handles, s: StatementId)
    ensures |h.statements + {h.nextId}| <= |h.statements| + 1
    ensures |h.statements - {s}| <= |h.statements|
  {
    Subset(h.statements - {s}, h.statements);
  }

  lemma ApplyStatementCount(limits: Limits, h: Handles, op: Op)
    requires |h.statements| <= limits.maxStatements
    ensures |Apply(limits, h, op).0.statements| <= limits.maxStatements
  {
    if op.RemoveStatement? {
      StatementsChange(h, op.statement);
    } else if op.NewStatement? {
      StatementsChange(h, 0);
    }
  }

  lemma ApplyResultCount(limits: Limits, h: Handles, op: Op)
    requires |h.results| <= limits.maxResults
    ensures |Apply(limits, h, op).0.results| <= limits.maxResults
  {
    if op.Invalidate? {
      ResultsShrink(h, Owned(h, op.statement));
    } else if op.CloseResult? {
      ResultsShrink(h, {op.result});
    } else if op.InsertResult? {
      ResultsGrow(h, op.owner);
    }
  }

  lemma ApplyIds(limits: Limits, h: Handles, op: Op)
    requires forall s | s in h.statements :: s < h.nextId
    requires forall id | id in h.results :: id < h.nextId
    ensures var after := Apply(limits, h, op).0;
            && h.nextId <= after.nextId
            && (forall s | s in after.statements :: s < after.nextId)
            && (forall id | id in after.results :: id < after.nextId)
  {
  }

  lemma ApplyKeepsQuotas(limits: Limits, h: Handles, op: Op)
    requires HandlesOk(limits, h)
    ensures HandlesOk(limits, Apply(limits, h, op).0)
    ensures h.nextId <= Apply(limits, h, op).0.nextId
  {
    ApplyStatementCount(limits, h, op);
    ApplyResultCount(limits, h, op);
    ApplyIds(limits, h, op);
  }

  lemma {:induction false} ApplyAllKeepsQuotas(limits: Limits, h: Handles, ops: seq<Op>)
    requires HandlesOk(limits, h)
    ensures HandlesOk(limits, ApplyAll(limits, h, ops))
    ensures h.nextId <= ApplyAll(limits, h, ops).nextId
  {
    if ops != [] {
      var n := |ops| - 1;
      ApplyAllKeepsQuotas(limits, h, ops[..n]);
      ApplyKeepsQuotas(limits, ApplyAll(limits, h, ops[..n]), ops[n]);
    }
  }

  // ---- The life of one handle ----

  /** `op` takes away result `id` of `owner`. */
  predicate Ends(op: Op, owner: Option<StatementId>, id: nat) {
    op == CloseResult(id) || (owner.Some? && op == Invalidate(owner.value))
  }

  /** An old result stays, with its owner, exactly until something ends it, and never comes back. */
  lemma ResultAfter(limits: Limits, h: Handles, op: Op, id: nat)
    requires id < h.nextId
    ensures var after := Apply(limits, h, op).0;
            && (id in after.results <==> id in h.results && !Ends(op, h.results[id], id))
            && (id in after.results ==> after.results[id] == h.results[id])
  {
  }

  ghost predicate NoneEnds(ops: seq<Op>, owner: Option<StatementId>, id: nat) {
    forall i | 0 <= i < |ops| :: !Ends(ops[i], owner, id)
  }

  lemma NoneEndsNext(ops: seq<Op>, owner: Option<StatementId>, id: nat)
    requires ops != []
    ensures var n := |ops| - 1;
            NoneEnds(ops, owner, id) <==> NoneEnds(ops[..n], owner, id) && !Ends(ops[n], owner, id)
  {
    var n := |ops| - 1;
    assert forall i | 0 <= i < n :: ops[..n][i] == ops[i];
  }

  lemma {:induction false} ResultLives(limits: Limits, h: Handles, ops: seq<Op>, id: nat)
    requires HandlesOk(limits, h) && id in h.results
    ensures var after := ApplyAll(limits, h, ops);
            && (id in after.results <==> NoneEnds(ops, h.results[id], id))
            && (id in after.results ==> after.results[id] == h.results[id])
  {
    if ops != [] {
      var n := |ops| - 1;
      ResultLives(limits, h, ops[..n], id);
      ApplyAllKeepsQuotas(limits, h, ops[..n]);
      ResultAfter(limits, ApplyAll(limits, h, ops[..n]), ops[n], id);
      NoneEndsNext(ops, h.results[id], id);
    }
  }

  lemma {:induction false} GoneStaysGone(limits: Limits, h: Handles, ops: seq<Op>, id: nat)
    requires HandlesOk(limits, h) && id < h.nextId && id !in h.results
    ensures id !in ApplyAll(limits, h, ops).results
  {
    if ops != [] {
      var n := |ops| - 1;
      GoneStaysGone(limits, h, ops[..n], id);
      ApplyAllKeepsQuotas(limits, h, ops[..n]);
      ResultAfter(limits, ApplyAll(limits, h, ops[..n]), ops[n], id);
    }
  }

  /** `result_response`: a response that fails to encode closes the result it was to announce. */
  function Announce(limits: Limits, h: Handles, id: nat, response: Option<Batch>): Handles {
    if response.None? then Apply(limits, h, CloseResult(id)).0 else h
  }

  /**
    A result is announced or gone, whatever else the worker runs in between: if the response fails, the
    cleanup takes away the handle just allocated and nothing else, and no later operation brings it
    back; if not, the announced result is there exactly if nothing has ended it meanwhile.
  */
  lemma ResultCleanupExact(limits: Limits, h: Handles, owner: Option<StatementId>, between: seq<Op>,
                           response: Option<Batch>, later: seq<Op>)
    requires HandlesOk(limits, h)
    ensures var (inserted, reply) := Apply(limits, h, InsertResult(owner));
            reply.Handle? ==>
              var id := reply.id;
              var current := ApplyAll(limits, inserted, between);
              var after := Announce(limits, current, id, response);
              && id !in h.results
              && (response.None? ==>
                    && after == current.(results := current.results - {id})
                    && id !in ApplyAll(limits, after, later).results)
              && (response.Some? ==> after == current && (id in after.results <==> NoneEnds(between, owner, id)))
  {
    var (inserted, reply) := Apply(limits, h, InsertResult(owner));
    if reply.Handle? {
      ApplyKeepsQuotas(limits, h, InsertResult(owner));
      ApplyAllKeepsQuotas(limits, inserted, between);
      ResultLives(limits, inserted, between, reply.id);
      var current := ApplyAll(limits, inserted, between);
      assert reply.id !in current.results ==> current.results - {reply.id} == current.results;
      if response.None? {
        ApplyKeepsQuotas(limits, current, CloseResult(reply.id));
        GoneStaysGone(limits, Announce(limits, current, reply.id, response), later, reply.id);
      }
    }
  }

  predicate Names(op: Op, s: StatementId) {
    || ((op.RemoveStatement? || op.UseStatement? || op.Invalidate?) && op.statement == s)
    || op == InsertResult(Some(s))
  }

  /** A statement that nobody names stays registered and without results. */
  lemma {:induction false} UnnamedStays(limits: Limits, h: Handles, ops: seq<Op>, s: StatementId)
    requires s in h.statements && Owned(h, s) == {}
    requires forall i | 0 <= i < |ops| :: !Names(ops[i], s)
    ensures var after := ApplyAll(limits, h, ops);
            s in after.statements && Owned(after, s) == {}
  {
    if ops != [] {
      var n := |ops| - 1;
      assert forall i | 0 <= i < n :: ops[..n][i] == ops[i];
      UnnamedStays(limits, h, ops[..n], s);
      UnnamedStep(limits, ApplyAll(limits, h, ops[..n]), ops[n], s);
    }
  }

  lemma UnnamedStep(limits: Limits, h: Handles, op: Op, s: StatementId)
    requires s in h.statements && Owned(h, s) == {} && !Names(op, s)
    ensures s in Apply(limits, h, op).0.statements && Owned(Apply(limits, h, op).0, s) == {}
  {
  }
}
