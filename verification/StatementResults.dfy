/**
  How many live results a statement has, for every list of operations that a
  session's worker can execute, overlapping requests included: exactly the
  results granted to it that nothing has ended since. At most one result at all
  times is therefore a property of the order of the operations, and holds
  exactly if something ends each result before the next one is granted.
*/
module StatementResults {
  import opened Prelude
  import opened SessionResources
  import opened SessionWorker
  import opened SessionHandles

  // ---- Executed operations ----

  /** The result that one operation grants to `s`, if any. */
  function Grant(limits: Limits, h: Handles, op: Op, s: StatementId): Option<nat> {
    var reply := Apply(limits, h, op).1;
    if op == InsertResult(Some(s)) && reply.Handle? then Some(reply.id) else None
  }

  /** What each operation of a session granted to `s`. */
  function Grants(limits: Limits, ops: seq<Op>, s: StatementId): (grants: seq<Option<nat>>)
    ensures |grants| == |ops|
  {
    if ops == [] then []
    else
      var n := |ops| - 1;
      Grants(limits, ops[..n], s) + [Grant(limits, ApplyAll(limits, NO_HANDLES, ops[..n]), ops[n], s)]
  }

  lemma {:induction false} GrantsPrefix(limits: Limits, ops: seq<Op>, s: StatementId, n: nat)
    requires n <= |ops|
    ensures Grants(limits, ops[..n], s) == Grants(limits, ops, s)[..n]
  {
    if n == |ops| {
      assert ops[..n] == ops;
    } else {
      var m := |ops| - 1;
      assert ops[..m][..n] == ops[..n];
      GrantsPrefix(limits, ops[..m], s, n);
    }
  }

  ghost predicate Rising(grants: seq<Option<nat>>, bound: nat) {
    && (forall i | 0 <= i < |grants| && grants[i].Some? :: grants[i].value < bound)
    && (forall i, j | 0 <= i < j < |grants| && grants[i].Some? && grants[j].Some? :: grants[i].value < grants[j].value)
  }

  lemma GrantRises(limits: Limits, h: Handles, op: Op, s: StatementId)
    requires HandlesOk(limits, h)
    ensures h.nextId <= Apply(limits, h, op).0.nextId
    ensures var grant := Grant(limits, h, op, s);
            grant.Some? ==> grant.value == h.nextId && Apply(limits, h, op).0.nextId == h.nextId + 1
  {
  }

  /** Handles are given out in increasing order. */
  lemma {:induction false} GrantsRise(limits: Limits, ops: seq<Op>, s: StatementId)
    ensures Rising(Grants(limits, ops, s), ApplyAll(limits, NO_HANDLES, ops).nextId)
  {
    if ops != [] {
      var n := |ops| - 1;
      GrantsRise(limits, ops[..n], s);
      ApplyAllKeepsQuotas(limits, NO_HANDLES, ops[..n]);
      GrantRises(limits, ApplyAll(limits, NO_HANDLES, ops[..n]), ops[n], s);
    }
  }

  // ---- Surviving grants ----

  /** Operation `i` granted result `id`, and nothing has ended it since. */
  ghost predicate Survives(ops: seq<Op>, grants: seq<Option<nat>>, s: StatementId, i: nat, id: nat)
    requires |grants| == |ops|
  {
    i < |ops| && grants[i] == Some(id) && forall k | i < k < |ops| :: !Ends(ops[k], Some(s), id)
  }

  ghost predicate Live(ops: seq<Op>, grants: seq<Option<nat>>, s: StatementId, id: nat)
    requires |grants| == |ops|
  {
    exists i: nat :: Survives(ops, grants, s, i, id)
  }

  /** What one operation does to the membership of one result. */
  lemma OwnedAfter(limits: Limits, h: Handles, op: Op, s: StatementId, id: nat)
    requires HandlesOk(limits, h)
    ensures id in Owned(Apply(limits, h, op).0, s) <==>
            (id in Owned(h, s) && !Ends(op, Some(s), id)) || Grant(limits, h, op, s) == Some(id)
  {
  }

  /** The same, seen from the list of operations. */
  lemma LiveAfter(ops: seq<Op>, grants: seq<Option<nat>>, s: StatementId, id: nat)
    requires ops != [] && |grants| == |ops|
    ensures var n := |ops| - 1;
            Live(ops, grants, s, id) <==> (Live(ops[..n], grants[..n], s, id) && !Ends(ops[n], Some(s), id)) || grants[n] == Some(id)
  {
    var n := |ops| - 1;
    forall i: nat | i < n
      ensures Survives(ops, grants, s, i, id) <==> Survives(ops[..n], grants[..n], s, i, id) && !Ends(ops[n], Some(s), id)
    {
      assert forall k | i < k < n :: ops[..n][k] == ops[k];
    }
    assert Survives(ops, grants, s, n, id) <==> grants[n] == Some(id);
  }

  /** The live results of a statement are exactly the granted ones that nothing has ended since. */
  lemma {:induction false} LiveResult(limits: Limits, ops: seq<Op>, s: StatementId, id: nat)
    ensures id in Owned(ApplyAll(limits, NO_HANDLES, ops), s) <==> Live(ops, Grants(limits, ops, s), s, id)
  {
    if ops != [] {
      var n := |ops| - 1;
      LiveResult(limits, ops[..n], s, id);
      ApplyAllKeepsQuotas(limits, NO_HANDLES, ops[..n]);
      OwnedAfter(limits, ApplyAll(limits, NO_HANDLES, ops[..n]), ops[n], s, id);
      LiveAfter(ops, Grants(limits, ops, s), s, id);
      assert Grants(limits, ops, s)[..n] == Grants(limits, ops[..n], s);
    }
  }

  // ---- At most one, at all times ----

  /** The statement has at most one live result after the first `n` operations. */
  ghost predicate OneAt(limits: Limits, ops: seq<Op>, s: StatementId, n: nat)
    requires n <= |ops|
  {
    |Owned(ApplyAll(limits, NO_HANDLES, ops[..n]), s)| <= 1
  }

  /** And after every operation. */
  ghost predicate AlwaysOne(limits: Limits, ops: seq<Op>, s: StatementId) {
    forall n: nat | n <= |ops| :: OneAt(limits, ops, s, n)
  }

  /** Something ends result `id` between operations `i` and `j`. */
  ghost predicate EndedBetween(ops: seq<Op>, s: StatementId, id: nat, i: nat, j: nat)
    requires i < j < |ops|
  {
    exists k: nat | i < k < j :: Ends(ops[k], Some(s), id)
  }

  /** Between any two grants the earlier result is ended. */
  ghost predicate Separated(ops: seq<Op>, grants: seq<Option<nat>>, s: StatementId)
    requires |grants| == |ops|
  {
    forall i: nat, j: nat | i < j < |ops| && grants[i].Some? && grants[j].Some? ::
      EndedBetween(ops, s, grants[i].value, i, j)
  }

  lemma AtMostOneElement<T>(a: set<T>)
    requires forall x, y | x in a && y in a :: x == y
    ensures |a| <= 1
  {
    if a != {} {
      var x :| x in a;
      assert a == {x};
    }
  }

  lemma TwoElements<T>(a: set<T>, x: T, y: T)
    requires x in a && y in a && x != y
    ensures |a| >= 2
  {
    assert a == (a - {x} - {y}) + {x} + {y};
  }

  lemma SurvivorNotEnded(ops: seq<Op>, grants: seq<Option<nat>>, s: StatementId, n: nat, i: nat, id: nat, k: nat)
    requires |grants| == |ops| && i < k < n <= |ops| && Survives(ops[..n], grants[..n], s, i, id)
    ensures !Ends(ops[k], Some(s), id)
  {
    assert ops[..n][k] == ops[k];
  }

  /** Two results that survive together were not separated. */
  lemma SeparatedSurvivor(ops: seq<Op>, grants: seq<Option<nat>>, s: StatementId, n: nat, i: nat, a: nat, j: nat, b: nat)
    requires |grants| == |ops| && Separated(ops, grants, s) && n <= |ops|
    requires Survives(ops[..n], grants[..n], s, i, a) && Survives(ops[..n], grants[..n], s, j, b)
    ensures i >= j
  {
    if i < j {
      assert EndedBetween(ops, s, grants[i].value, i, j);
      var k: nat :| i < k < j && Ends(ops[k], Some(s), a);
      SurvivorNotEnded(ops, grants, s, n, i, a, k);
    }
  }

  lemma SeparatedIsOne(limits: Limits, ops: seq<Op>, s: StatementId, n: nat)
    requires Separated(ops, Grants(limits, ops, s), s) && n <= |ops|
    ensures |Owned(ApplyAll(limits, NO_HANDLES, ops[..n]), s)| <= 1
  {
    var owned := Owned(ApplyAll(limits, NO_HANDLES, ops[..n]), s);
    var grants := Grants(limits, ops, s);
    GrantsPrefix(limits, ops, s, n);
    forall a, b | a in owned && b in owned
      ensures a == b
    {
      LiveResult(limits, ops[..n], s, a);
      LiveResult(limits, ops[..n], s, b);
      var i: nat :| Survives(ops[..n], grants[..n], s, i, a);
      var j: nat :| Survives(ops[..n], grants[..n], s, j, b);
      SeparatedSurvivor(ops, grants, s, n, i, a, j, b);
      SeparatedSurvivor(ops, grants, s, n, j, b, i, a);
    }
    AtMostOneElement(owned);
  }

  lemma SurvivesPrefix(ops: seq<Op>, grants: seq<Option<nat>>, s: StatementId, i: nat, j: nat)
    requires |grants| == |ops| && i < j < |ops| && grants[i].Some? && grants[j].Some?
    requires !EndedBetween(ops, s, grants[i].value, i, j) && !Ends(ops[j], Some(s), grants[i].value)
    ensures Survives(ops[..j + 1], grants[..j + 1], s, i, grants[i].value)
    ensures Survives(ops[..j + 1], grants[..j + 1], s, j, grants[j].value)
  {
  }

  lemma OneIsSeparated(limits: Limits, ops: seq<Op>, s: StatementId, i: nat, j: nat)
    requires i < j < |ops|
    requires var grants := Grants(limits, ops, s); grants[i].Some? && grants[j].Some?
    requires |Owned(ApplyAll(limits, NO_HANDLES, ops[..j + 1]), s)| <= 1
    ensures EndedBetween(ops, s, Grants(limits, ops, s)[i].value, i, j)
  {
    var grants := Grants(limits, ops, s);
    var a, b := grants[i].value, grants[j].value;
    if !EndedBetween(ops, s, a, i, j) {
      GrantIsInsert(limits, ops, s, j);
      SurvivesPrefix(ops, grants, s, i, j);
      GrantsPrefix(limits, ops, s, j + 1);
      LiveResult(limits, ops[..j + 1], s, a);
      LiveResult(limits, ops[..j + 1], s, b);
      GrantsRise(limits, ops, s);
      TwoElements(Owned(ApplyAll(limits, NO_HANDLES, ops[..j + 1]), s), a, b);
    }
  }

  lemma {:induction false} GrantIsInsert(limits: Limits, ops: seq<Op>, s: StatementId, i: nat)
    requires i < |ops| && Grants(limits, ops, s)[i].Some?
    ensures ops[i] == InsertResult(Some(s))
  {
    GrantsPrefix(limits, ops, s, i + 1);
    assert ops[..i + 1][i] == ops[i];
    assert Grants(limits, ops[..i + 1], s)[i] == Grants(limits, ops, s)[i];
  }

  /** A statement has at most one live result at all times if and only if, between any two results that
      it is granted, an invalidation or a close ends the earlier one. */
  lemma OneResultIff(limits: Limits, ops: seq<Op>, s: StatementId)
    ensures AlwaysOne(limits, ops, s) <==> Separated(ops, Grants(limits, ops, s), s)
  {
    var grants := Grants(limits, ops, s);
    if Separated(ops, grants, s) {
      forall n: nat | n <= |ops| ensures OneAt(limits, ops, s, n) { SeparatedIsOne(limits, ops, s, n); }
    }
    if AlwaysOne(limits, ops, s) {
      forall i: nat, j: nat | i < j < |ops| && grants[i].Some? && grants[j].Some?
        ensures EndedBetween(ops, s, grants[i].value, i, j)
      {
        assert OneAt(limits, ops, s, j + 1);
        OneIsSeparated(limits, ops, s, i, j);
      }
    }
  }

  /** A set and its image under a map that is injective on it have the same size. */
  lemma {:induction false} ImageSize(positions: set<nat>, image: set<nat>, grants: seq<Option<nat>>)
    requires forall i | i in positions :: i < |grants| && grants[i].Some? && grants[i].value in image
    requires forall i, j | i in positions && j in positions && grants[i] == grants[j] :: i == j
    requires forall id | id in image :: exists i :: i in positions && grants[i] == Some(id)
    ensures |positions| == |image|
    decreases |positions|
  {
    if positions == {} {
      assert image == {};
    } else {
      var i :| i in positions;
      ImageSize(positions - {i}, image - {grants[i].value}, grants);
    }
  }

  ghost function Surviving(ops: seq<Op>, grants: seq<Option<nat>>, s: StatementId): set<nat>
    requires |grants| == |ops|
  {
    set i: nat | i < |ops| && grants[i].Some? && Survives(ops, grants, s, i, grants[i].value)
  }

  /** The exact count: grants to the statement that nothing has ended since. */
  lemma LiveCount(limits: Limits, ops: seq<Op>, s: StatementId)
    ensures |Owned(ApplyAll(limits, NO_HANDLES, ops), s)| == |Surviving(ops, Grants(limits, ops, s), s)|
  {
    var grants := Grants(limits, ops, s);
    var owned := Owned(ApplyAll(limits, NO_HANDLES, ops), s);
    var positions := Surviving(ops, grants, s);
    GrantsRise(limits, ops, s);
    forall i | i in positions
      ensures grants[i].value in owned
    {
      LiveResult(limits, ops, s, grants[i].value);
    }
    forall id | id in owned
      ensures exists i :: i in positions && grants[i] == Some(id)
    {
      LiveResult(limits, ops, s, id);
      var i: nat :| Survives(ops, grants, s, i, id);
      assert i in positions;
    }
    ImageSize(positions, owned, grants);
  }

  // ---- Runs of the worker ----

  /** The operations that ran, in order. */
  function Executed(outcomes: seq<Outcome<Handles, Op, Reply>>): seq<Op> {
    if outcomes == [] then []
    else
      var n := |outcomes| - 1;
      Executed(outcomes[..n]) + (if outcomes[n].Ran? then [outcomes[n].job.op] else [])
  }

  /** What a worker has executed explains its state. */
  ghost predicate Traced(limits: Limits, w: Actor) {
    w.shared == ApplyAll(limits, NO_HANDLES, Executed(w.outcomes))
  }

  lemma ExecutedNext(limits: Limits, w: Actor, b: SessionWorker.Step<Op>)
    ensures var after := SessionWorker.Next(Applier(limits), w, b);
            if b.Execute? && w.hand.Started? then
              && Executed(after.outcomes) == Executed(w.outcomes) + [w.hand.job.op]
              && after.shared == Apply(limits, w.shared, w.hand.job.op).0
            else Executed(after.outcomes) == Executed(w.outcomes) && after.shared == w.shared
  {
    var after := SessionWorker.Next(Applier(limits), w, b);
    if after.outcomes != w.outcomes {
      assert after.outcomes[..|w.outcomes|] == w.outcomes;
    }
  }

  lemma AlwaysOneNext(limits: Limits, ops: seq<Op>, op: Op, s: StatementId)
    ensures ApplyAll(limits, NO_HANDLES, ops + [op]) == Apply(limits, ApplyAll(limits, NO_HANDLES, ops), op).0
    ensures AlwaysOne(limits, ops + [op], s) <==>
            AlwaysOne(limits, ops, s) && |Owned(ApplyAll(limits, NO_HANDLES, ops + [op]), s)| <= 1
  {
    var longer := ops + [op];
    assert longer[..|ops|] == ops && longer[..|ops| + 1] == longer;
    forall n: nat | n <= |ops|
      ensures OneAt(limits, longer, s, n) <==> OneAt(limits, ops, s, n)
    {
      assert longer[..n] == ops[..n];
    }
    assert OneAt(limits, longer, s, |ops| + 1) <==> |Owned(ApplyAll(limits, NO_HANDLES, longer), s)| <= 1;
  }

  /** A worker action keeps the trace, and keeps "always one" exactly if it leaves at most one. */
  lemma TraceNext(limits: Limits, w: Actor, b: SessionWorker.Step<Op>, s: StatementId)
    requires Traced(limits, w)
    ensures var after := SessionWorker.Next(Applier(limits), w, b);
            && Traced(limits, after)
            && (AlwaysOne(limits, Executed(after.outcomes), s) <==>
                  AlwaysOne(limits, Executed(w.outcomes), s) && |Owned(after.shared, s)| <= 1)
  {
    ExecutedNext(limits, w, b);
    var ops := Executed(w.outcomes);
    if b.Execute? && w.hand.Started? {
      AlwaysOneNext(limits, ops, w.hand.job.op, s);
    } else if AlwaysOne(limits, ops, s) {
      assert ops[..|ops|] == ops;
      assert OneAt(limits, ops, s, |ops|);
    }
  }

  function WorkerRun(limits: Limits, steps: seq<SessionWorker.Step<Op>>): Actor {
    SessionWorker.Run(Applier(limits), Fresh(NO_HANDLES), steps)
  }

  /** At most one live result after the first `n` steps of a run. */
  ghost predicate OneIn(limits: Limits, steps: seq<SessionWorker.Step<Op>>, s: StatementId, n: nat)
    requires n <= |steps|
  {
    |Owned(WorkerRun(limits, steps[..n]).shared, s)| <= 1
  }

  /** And in every state of it. */
  ghost predicate OneThroughout(limits: Limits, steps: seq<SessionWorker.Step<Op>>, s: StatementId) {
    forall n: nat | n <= |steps| :: OneIn(limits, steps, s, n)
  }

  lemma RunLast(limits: Limits, steps: seq<SessionWorker.Step<Op>>)
    requires steps != []
    ensures var n := |steps| - 1;
            WorkerRun(limits, steps) == SessionWorker.Next(Applier(limits), WorkerRun(limits, steps[..n]), steps[n])
  {
  }

  lemma OneThroughoutNext(limits: Limits, steps: seq<SessionWorker.Step<Op>>, s: StatementId)
    requires steps != []
    ensures OneThroughout(limits, steps, s) <==>
            OneThroughout(limits, steps[..|steps| - 1], s) && |Owned(WorkerRun(limits, steps).shared, s)| <= 1
  {
    var n := |steps| - 1;
    assert steps[..n + 1] == steps;
    forall m: nat | m <= n
      ensures OneIn(limits, steps, s, m) <==> OneIn(limits, steps[..n], s, m)
    {
      assert steps[..n][..m] == steps[..m];
    }
    assert OneIn(limits, steps, s, n + 1) <==> |Owned(WorkerRun(limits, steps).shared, s)| <= 1;
  }

  lemma {:induction false} RunTraced(limits: Limits, steps: seq<SessionWorker.Step<Op>>, s: StatementId)
    ensures Traced(limits, WorkerRun(limits, steps))
    ensures OneThroughout(limits, steps, s) <==> AlwaysOne(limits, Executed(WorkerRun(limits, steps).outcomes), s)
  {
    if steps == [] {
      NothingOwned(limits, s);
    } else {
      var n := |steps| - 1;
      RunTraced(limits, steps[..n], s);
      RunLast(limits, steps);
      OneThroughoutNext(limits, steps, s);
      TraceNext(limits, WorkerRun(limits, steps[..n]), steps[n], s);
    }
  }

  lemma NothingOwned(limits: Limits, s: StatementId)
    ensures ApplyAll(limits, NO_HANDLES, []) == NO_HANDLES && Owned(NO_HANDLES, s) == {} && AlwaysOne(limits, [], s)
    ensures OneThroughout(limits, [], s)
  {
  }

  /**
    Every run of the worker, overlapping requests, timeouts and late effects included: the live results
    of a statement are counted exactly, and there is at most one in every state of the run if and only
    if the operations that ran end each of its results before the next is granted.
  */
  lemma WorkerOneResultIff(limits: Limits, steps: seq<SessionWorker.Step<Op>>, s: StatementId)
    ensures var w := WorkerRun(limits, steps);
            var ops := Executed(w.outcomes);
            && |Owned(w.shared, s)| == |Surviving(ops, Grants(limits, ops, s), s)|
            && (OneThroughout(limits, steps, s) <==> Separated(ops, Grants(limits, ops, s), s))
  {
    var ops := Executed(WorkerRun(limits, steps).outcomes);
    RunTraced(limits, steps, s);
    LiveCount(limits, ops, s);
    OneResultIff(limits, ops, s);
  }

  /** A session's action is an action of its worker, or leaves the worker alone. */
  lemma SessionMoves(limits: Limits, x: Session, step: SessionHandles.Step) returns (b: Option<SessionWorker.Step<Op>>)
    ensures SessionHandles.Next(limits, x, step).w == if b.Some? then SessionWorker.Next(Applier(limits), x.w, b.value) else x.w
  {
    b := None;
    match step
    case Background(own) => if !own.Call? { b := Some(own); }
    case OtherCall(op) => if Unscoped(op) { b := Some(Call(op)); }
    case Submit(t, ok) =>
      if DoSubmit(limits, x, t, ok).w != x.w { b := Some(Call(NextAct(x.requests[t], t, ok).value.op)); }
    case _ =>
  }

  lemma SessionTraced(limits: Limits, x: Session, step: SessionHandles.Step, s: StatementId)
    requires Traced(limits, x.w) && AlwaysOne(limits, Executed(x.w.outcomes), s)
    ensures var after := SessionHandles.Next(limits, x, step).w;
            Traced(limits, after) && (|Owned(after.shared, s)| <= 1 ==> AlwaysOne(limits, Executed(after.outcomes), s))
  {
    var b := SessionMoves(limits, x, step);
    if b.Some? {
      TraceNext(limits, x.w, b.value, s);
    }
  }

  /** Requests that do not overlap separate the results of every statement, in every run. */
  lemma {:induction false} RequestsSeparate(limits: Limits, steps: seq<SessionHandles.Step>, s: StatementId)
    ensures var w := SessionHandles.Run(limits, Opened(), steps).w;
            var ops := Executed(w.outcomes);
            Traced(limits, w) && AlwaysOne(limits, ops, s) && Separated(ops, Grants(limits, ops, s), s)
  {
    var w := SessionHandles.Run(limits, Opened(), steps).w;
    if steps == [] {
      NothingOwned(limits, s);
    } else {
      var n := |steps| - 1;
      RequestsSeparate(limits, steps[..n], s);
      SessionTraced(limits, SessionHandles.Run(limits, Opened(), steps[..n]), steps[n], s);
      OneLiveResult(limits, steps, s);
    }
    OneResultIff(limits, Executed(w.outcomes), s);
  }

  // ---- After a close ----

  /** The statement has no live result after the first `n` operations. */
  ghost predicate ClearAt(limits: Limits, ops: seq<Op>, s: StatementId, n: nat)
    requires n <= |ops|
  {
    Owned(ApplyAll(limits, NO_HANDLES, ops[..n]), s) == {}
  }

  /** And after every later one. */
  ghost predicate AlwaysClear(limits: Limits, ops: seq<Op>, s: StatementId, m: nat) {
    forall n: nat | m <= n <= |ops| :: ClearAt(limits, ops, s, n)
  }

  ghost predicate NoGrantFrom(grants: seq<Option<nat>>, m: nat) {
    forall j: nat | m <= j < |grants| :: grants[j].None?
  }

  lemma ClearedStays(limits: Limits, ops: seq<Op>, s: StatementId, k: nat, n: nat)
    requires k < n <= |ops| && ops[k] == Invalidate(s) && NoGrantFrom(Grants(limits, ops, s), k + 1)
    ensures Owned(ApplyAll(limits, NO_HANDLES, ops[..n]), s) == {}
  {
    var grants := Grants(limits, ops, s);
    var owned := Owned(ApplyAll(limits, NO_HANDLES, ops[..n]), s);
    GrantsPrefix(limits, ops, s, n);
    forall id: nat
      ensures id !in owned
    {
      LiveResult(limits, ops[..n], s, id);
      if id in owned {
        var i: nat :| Survives(ops[..n], grants[..n], s, i, id);
        GrantIsInsert(limits, ops, s, i);
        SurvivorNotEnded(ops, grants, s, n, i, id, k);
      }
    }
  }

  lemma GrantIsLive(limits: Limits, ops: seq<Op>, s: StatementId, j: nat)
    requires j < |ops| && Grants(limits, ops, s)[j].Some?
    ensures Owned(ApplyAll(limits, NO_HANDLES, ops[..j + 1]), s) != {}
  {
    var id := Grants(limits, ops, s)[j].value;
    GrantsPrefix(limits, ops, s, j + 1);
    assert Survives(ops[..j + 1], Grants(limits, ops[..j + 1], s), s, j, id);
    LiveResult(limits, ops[..j + 1], s, id);
  }

  /** Once invalidated, a statement stays without results if and only if no later insert is granted to it. */
  lemma ClearIff(limits: Limits, ops: seq<Op>, s: StatementId, k: nat)
    requires k < |ops| && ops[k] == Invalidate(s)
    ensures AlwaysClear(limits, ops, s, k + 1) <==> NoGrantFrom(Grants(limits, ops, s), k + 1)
  {
    if NoGrantFrom(Grants(limits, ops, s), k + 1) {
      forall n: nat | k + 1 <= n <= |ops|
        ensures ClearAt(limits, ops, s, n)
      {
        ClearedStays(limits, ops, s, k, n);
      }
    }
    if AlwaysClear(limits, ops, s, k + 1) {
      forall j: nat | k + 1 <= j < |ops|
        ensures Grants(limits, ops, s)[j].None?
      {
        assert ClearAt(limits, ops, s, j + 1);
        if Grants(limits, ops, s)[j].Some? {
          GrantIsLive(limits, ops, s, j);
        }
      }
    }
  }

  lemma AlwaysClearNext(limits: Limits, ops: seq<Op>, op: Op, s: StatementId, m: nat)
    requires m <= |ops|
    ensures AlwaysClear(limits, ops + [op], s, m) <==>
            AlwaysClear(limits, ops, s, m) && Owned(ApplyAll(limits, NO_HANDLES, ops + [op]), s) == {}
  {
    var longer := ops + [op];
    assert longer[..|ops| + 1] == longer;
    forall n: nat | n <= |ops|
      ensures ClearAt(limits, longer, s, n) <==> ClearAt(limits, ops, s, n)
    {
      assert longer[..n] == ops[..n];
    }
    assert ClearAt(limits, longer, s, |ops| + 1) <==> Owned(ApplyAll(limits, NO_HANDLES, longer), s) == {};
  }

  /** No live result after `before` and the first `n` steps behind it. */
  ghost predicate ClearIn(limits: Limits, before: seq<SessionWorker.Step<Op>>, after: seq<SessionWorker.Step<Op>>,
                          s: StatementId, n: nat)
    requires n <= |after|
  {
    Owned(WorkerRun(limits, before + after[..n]).shared, s) == {}
  }

  /** And in any state from `before` on. */
  ghost predicate ClearThroughout(limits: Limits, before: seq<SessionWorker.Step<Op>>, after: seq<SessionWorker.Step<Op>>,
                                  s: StatementId) {
    forall n: nat | n <= |after| :: ClearIn(limits, before, after, s, n)
  }

  lemma ClearThroughoutNext(limits: Limits, before: seq<SessionWorker.Step<Op>>, after: seq<SessionWorker.Step<Op>>,
                            step: SessionWorker.Step<Op>, s: StatementId)
    ensures ClearThroughout(limits, before, after + [step], s) <==>
            ClearThroughout(limits, before, after, s) && Owned(WorkerRun(limits, before + (after + [step])).shared, s) == {}
  {
    var longer := after + [step];
    assert longer[..|after| + 1] == longer;
    forall n: nat | n <= |after|
      ensures ClearIn(limits, before, longer, s, n) <==> ClearIn(limits, before, after, s, n)
    {
      assert longer[..n] == after[..n];
    }
    assert ClearIn(limits, before, longer, s, |after| + 1) <==> Owned(WorkerRun(limits, before + longer).shared, s) == {};
  }

  /** A worker action, as the operations executed so far and those from `m` on see it. */
  lemma ClearTrace(limits: Limits, w: Actor, b: SessionWorker.Step<Op>, s: StatementId, m: nat)
    requires Traced(limits, w) && m <= |Executed(w.outcomes)|
    ensures var after := SessionWorker.Next(Applier(limits), w, b);
            && Traced(limits, after) && Executed(w.outcomes) <= Executed(after.outcomes)
            && (AlwaysClear(limits, Executed(after.outcomes), s, m) <==>
                  AlwaysClear(limits, Executed(w.outcomes), s, m) && Owned(after.shared, s) == {})
  {
    var ops := Executed(w.outcomes);
    ExecutedNext(limits, w, b);
    TraceNext(limits, w, b, s);
    if b.Execute? && w.hand.Started? {
      AlwaysClearNext(limits, ops, w.hand.job.op, s, m);
    } else if AlwaysClear(limits, ops, s, m) {
      assert ops[..|ops|] == ops;
      assert ClearAt(limits, ops, s, |ops|);
    }
  }

  /** The states of a run from `before` on and the operations executed from there on tell the same. */
  ghost predicate ClearTogether(limits: Limits, before: seq<SessionWorker.Step<Op>>, after: seq<SessionWorker.Step<Op>>,
                                s: StatementId) {
    var first := Executed(WorkerRun(limits, before).outcomes);
    var w := WorkerRun(limits, before + after);
    && Traced(limits, w) && first <= Executed(w.outcomes)
    && (ClearThroughout(limits, before, after, s) <==> AlwaysClear(limits, Executed(w.outcomes), s, |first|))
  }

  lemma ClearBegins(limits: Limits, before: seq<SessionWorker.Step<Op>>, s: StatementId)
    ensures ClearTogether(limits, before, [], s)
  {
    var first := Executed(WorkerRun(limits, before).outcomes);
    RunTraced(limits, before, s);
    assert first[..|first|] == first;
    assert before + [] == before;
    assert ClearIn(limits, before, [], s, 0) <==> Owned(WorkerRun(limits, before).shared, s) == {};
    assert ClearAt(limits, first, s, |first|) <==> Owned(WorkerRun(limits, before).shared, s) == {};
  }

  /** One more step behind `before`. */
  lemma ClearContinues(limits: Limits, before: seq<SessionWorker.Step<Op>>, after: seq<SessionWorker.Step<Op>>,
                       step: SessionWorker.Step<Op>, s: StatementId)
    requires ClearTogether(limits, before, after, s)
    ensures ClearTogether(limits, before, after + [step], s)
  {
    var first := Executed(WorkerRun(limits, before).outcomes);
    ClearThroughoutNext(limits, before, after, step, s);
    Associative(before, after, [step]);
    SessionWorker.RunNext(Applier(limits), Fresh(NO_HANDLES), before + after, step);
    ClearTrace(limits, WorkerRun(limits, before + after), step, s, |first|);
  }

  lemma {:induction false} RunClear(limits: Limits, before: seq<SessionWorker.Step<Op>>, after: seq<SessionWorker.Step<Op>>,
                                    s: StatementId)
    ensures ClearTogether(limits, before, after, s)
  {
    if after == [] {
      ClearBegins(limits, before, s);
    } else {
      var first, last := after[..|after| - 1], after[|after| - 1];
      assert first + [last] == after;
      RunClear(limits, before, first, s);
      ClearContinues(limits, before, first, last, s);
    }
  }

  /**
    Every run of the worker in which the invalidation of a close has just been executed, and every way it
    goes on, overlapping requests included: the statement has no live result in any later state if and
    only if no later insert is granted to it.
  */
  lemma ClosedStaysClearIff(limits: Limits, before: seq<SessionWorker.Step<Op>>, after: seq<SessionWorker.Step<Op>>, s: StatementId)
    requires var first := Executed(WorkerRun(limits, before).outcomes);
             first != [] && first[|first| - 1] == Invalidate(s)
    ensures var first := Executed(WorkerRun(limits, before).outcomes);
            var ops := Executed(WorkerRun(limits, before + after).outcomes);
            ClearThroughout(limits, before, after, s) <==> NoGrantFrom(Grants(limits, ops, s), |first|)
  {
    var first := Executed(WorkerRun(limits, before).outcomes);
    RunClear(limits, before, after, s);
    ClearIff(limits, Executed(WorkerRun(limits, before + after).outcomes), s, |first| - 1);
  }

  // ---- Two requests at once ----

  /** One call and its answer on an otherwise idle worker; `id` is the number of the call. */
  function Serve(op: Op, id: nat): seq<SessionWorker.Step<Op>> {
    [Call(op)] + [Fetch] + [Check] + [SessionWorker.Step.Execute] + [Receive(id)]
  }

  /** The operations of a program one after the other, up to the first reply that is not good. */
  function Rest(limits: Limits, h: Handles, program: seq<Act>): Handles
    decreases |program|
  {
    if program == [] || !program[0].OnWorker? then h
    else
      var (after, reply) := Apply(limits, h, program[0].op);
      if Good(reply) then Rest(limits, after, program[1..]) else after
  }

  lemma RestNext(limits: Limits, h: Handles, op: Op, rest: seq<Act>)
    ensures var (after, reply) := Apply(limits, h, op);
            Rest(limits, h, [OnWorker(op)] + rest) == if Good(reply) then Rest(limits, after, rest) else after
  {
    assert ([OnWorker(op)] + rest)[1..] == rest;
  }

  /** The calls of a program, each after the answer to the one before, up to the first that is not good. */
  function Asking(limits: Limits, h: Handles, program: seq<Act>, id: nat): seq<SessionWorker.Step<Op>>
    decreases |program|
  {
    if program == [] || !program[0].OnWorker? then []
    else
      var (after, reply) := Apply(limits, h, program[0].op);
      Serve(program[0].op, id) + (if Good(reply) then Asking(limits, after, program[1..], id + 1) else [])
  }

  lemma ServeRuns(limits: Limits, w: Actor, op: Op)
    ensures SessionWorker.Run(Applier(limits), w, Serve(op, |w.callers|)) == Served(limits, w, op)
  {
    var a := [Call(op)];
    var b := a + [Fetch];
    var c := b + [Check];
    SessionWorker.RunNext(Applier(limits), w, [], Call(op));
    assert [] + a == a;
    SessionWorker.RunNext(Applier(limits), w, a, Fetch);
    SessionWorker.RunNext(Applier(limits), w, b, Check);
    SessionWorker.RunNext(Applier(limits), w, c, SessionWorker.Step.Execute);
    SessionWorker.RunNext(Applier(limits), w, c + [SessionWorker.Step.Execute], Receive(|w.callers|));
  }

  lemma ServedExactly(limits: Limits, w: Actor, op: Op) returns (after: Actor)
    requires ActorOk(limits, w) && Quiescent(w)
    ensures after == SessionWorker.Run(Applier(limits), w, Serve(op, |w.callers|))
    ensures ActorOk(limits, after) && Quiescent(after)
    ensures after.shared == Apply(limits, w.shared, op).0 && |after.callers| == |w.callers| + 1
  {
    ServeRuns(limits, w, op);
    ServedAlone(Applier(limits), NO_HANDLES, w, op);
    ServedKeeps(limits, w, op);
    after := Served(limits, w, op);
  }

  lemma {:induction false} AskingRuns(limits: Limits, w: Actor, program: seq<Act>)
    requires ActorOk(limits, w) && Quiescent(w)
    ensures SessionWorker.Run(Applier(limits), w, Asking(limits, w.shared, program, |w.callers|)).shared
            == Rest(limits, w.shared, program)
    decreases |program|
  {
    if program != [] && program[0].OnWorker? {
      var op := program[0].op;
      var after := ServedExactly(limits, w, op);
      if Good(Apply(limits, w.shared, op).1) {
        AskingRuns(limits, after, program[1..]);
        SessionWorker.RunJoin(Applier(limits), w, Serve(op, |w.callers|), Asking(limits, after.shared, program[1..], |after.callers|));
      } else {
        assert Serve(op, |w.callers|) + [] == Serve(op, |w.callers|);
      }
    }
  }

  /** Two equal requests in lock step: each takes its next step right after the other took the same. */
  function LockStep(program: seq<Act>): seq<Act> {
    if program == [] then [] else [program[0], program[0]] + LockStep(program[1..])
  }

  /** Every call of the program is answered well, so no request stops early. */
  predicate Completes(limits: Limits, h: Handles, program: seq<Act>)
    decreases |program|
  {
    program == [] ||
    (program[0].OnWorker?
     && var (after, reply) := Apply(limits, h, program[0].op); Good(reply) && Completes(limits, after, program[1..]))
  }

  lemma LockStepNext(limits: Limits, h: Handles, op: Op, rest: seq<Act>)
    requires Good(Apply(limits, h, op).1) && Good(Apply(limits, Apply(limits, h, op).0, op).1)
    ensures var after := Apply(limits, Apply(limits, h, op).0, op).0;
            && Rest(limits, h, LockStep([OnWorker(op)] + rest)) == Rest(limits, after, LockStep(rest))
            && (Completes(limits, h, LockStep([OnWorker(op)] + rest)) <==> Completes(limits, after, LockStep(rest)))
  {
    var act := OnWorker(op);
    var tail := LockStep(rest);
    assert ([act] + rest)[1..] == rest;
    assert LockStep([act] + rest) == [act] + ([act] + tail);
    CompletesNext(limits, h, op, [act] + tail);
    CompletesNext(limits, Apply(limits, h, op).0, op, tail);
  }

  lemma TwoInserts(limits: Limits, h: Handles, s: StatementId)
    requires Owned(h, s) == {} && |h.results| + 2 <= limits.maxResults
    ensures var (once, first) := Apply(limits, h, InsertResult(Some(s)));
            var (twice, second) := Apply(limits, once, InsertResult(Some(s)));
            Good(first) && Good(second) && Owned(twice, s) == {h.nextId, h.nextId + 1}
  {
    ResultsGrow(h, Some(s));
  }

  /** What two overlapping EXECUTEs on a registered statement leave, and that neither meets an error. */
  lemma LockStepEffect(limits: Limits, h: Handles, s: StatementId)
    requires s in h.statements && |Cleaned(h, s).results| + 2 <= limits.maxResults
    ensures var both := LockStep(Program(Kind.Execute, s, true));
            Completes(limits, h, both) && Owned(Rest(limits, h, both), s) == {h.nextId, h.nextId + 1}
  {
    var clean := Cleaned(h, s);
    var insert := [OnWorker(InsertResult(Some(s)))];
    var again := [OnWorker(Invalidate(s))] + insert;
    var use := [OnWorker(UseStatement(s, true))] + again;
    assert Program(Kind.Execute, s, true) == [OnWorker(Invalidate(s))] + use && insert + [] == insert;
    ExecuteReplies(limits, h, s, true);
    LockStepNext(limits, h, Invalidate(s), use);
    LockStepNext(limits, clean, UseStatement(s, true), again);
    LockStepNext(limits, clean, Invalidate(s), insert);
    assert Owned(clean, s) == {};
    TwoInserts(limits, clean, s);
    LockStepNext(limits, clean, InsertResult(Some(s)), []);
  }

  /** Two EXECUTEs that overlap: a run of the worker in which each request waits for every answer, none
      is an error, and the statement is left with two live results. */
  lemma OverlapLeavesTwoResults(limits: Limits, w: Actor, s: StatementId)
    requires ActorOk(limits, w) && Quiescent(w)
    requires s in w.shared.statements && |Cleaned(w.shared, s).results| + 2 <= limits.maxResults
    ensures var both := LockStep(Program(Kind.Execute, s, true));
            var after := SessionWorker.Run(Applier(limits), w, Asking(limits, w.shared, both, |w.callers|));
            Completes(limits, w.shared, both) && Owned(after.shared, s) == {w.shared.nextId, w.shared.nextId + 1}
  {
    LockStepEffect(limits, w.shared, s);
    AskingRuns(limits, w, LockStep(Program(Kind.Execute, s, true)));
  }

  /** A close that runs between the execution and the insertion of an EXECUTE on the same statement. */
  function ClosedMidway(s: StatementId): seq<Act> {
    Program(Kind.Execute, s, true)[..2] + Program(Close, s, true)[..2] + Program(Kind.Execute, s, true)[2..]
  }

  lemma CompletesNext(limits: Limits, h: Handles, op: Op, rest: seq<Act>)
    requires Good(Apply(limits, h, op).1)
    ensures var after := Apply(limits, h, op).0;
            && Rest(limits, h, [OnWorker(op)] + rest) == Rest(limits, after, rest)
            && (Completes(limits, h, [OnWorker(op)] + rest) <==> Completes(limits, after, rest))
  {
    RestNext(limits, h, op, rest);
    assert ([OnWorker(op)] + rest)[1..] == rest;
  }

  /** The replies that this meets, and what they leave. */
  lemma MidwayReplies(limits: Limits, h: Handles, s: StatementId)
    requires s in h.statements && |Cleaned(h, s).results| < limits.maxResults
    ensures var clean := Cleaned(h, s);
            var closed := clean.(statements := clean.statements - {s});
            && Apply(limits, h, Invalidate(s)) == (clean, Done)
            && Apply(limits, clean, UseStatement(s, true)) == (clean, Done)
            && Apply(limits, clean, RemoveStatement(s)) == (closed, Done)
            && Apply(limits, closed, Invalidate(s)) == (closed, Done)
            && Apply(limits, closed, InsertResult(Some(s))).1 == Handle(h.nextId)
            && Owned(Apply(limits, closed, InsertResult(Some(s))).0, s) == {h.nextId}
            && s !in Apply(limits, closed, InsertResult(Some(s))).0.statements
  {
    var clean := Cleaned(h, s);
    ExecuteReplies(limits, h, s, true);
    assert Owned(clean, s) == {};
    NothingToInvalidate(limits, clean, s);
  }

  lemma ClosedMidwayEffect(limits: Limits, h: Handles, s: StatementId)
    requires s in h.statements && |Cleaned(h, s).results| < limits.maxResults
    ensures var after := Rest(limits, h, ClosedMidway(s));
            Completes(limits, h, ClosedMidway(s)) && s !in after.statements && Owned(after, s) == {h.nextId}
  {
    var clean := Cleaned(h, s);
    var closed := clean.(statements := clean.statements - {s});
    var insert := [OnWorker(InsertResult(Some(s)))];
    var again := [OnWorker(Invalidate(s))] + insert;
    var clear := [OnWorker(Invalidate(s))] + again;
    var remove := [OnWorker(RemoveStatement(s))] + clear;
    var use := [OnWorker(UseStatement(s, true))] + remove;
    assert ClosedMidway(s) == [OnWorker(Invalidate(s))] + use && insert + [] == insert;
    MidwayReplies(limits, h, s);
    CompletesNext(limits, h, Invalidate(s), use);
    CompletesNext(limits, clean, UseStatement(s, true), remove);
    CompletesNext(limits, clean, RemoveStatement(s), clear);
    CompletesNext(limits, closed, Invalidate(s), again);
    CompletesNext(limits, closed, Invalidate(s), insert);
    CompletesNext(limits, closed, InsertResult(Some(s)), []);
  }

  /** A close that overlaps an EXECUTE: a run of the worker without any error reply, after which the
      statement is closed and owns a live result. */
  lemma OverlappedCloseLeavesResult(limits: Limits, w: Actor, s: StatementId)
    requires ActorOk(limits, w) && Quiescent(w)
    requires s in w.shared.statements && |Cleaned(w.shared, s).results| < limits.maxResults
    ensures var after := SessionWorker.Run(Applier(limits), w, Asking(limits, w.shared, ClosedMidway(s), |w.callers|)).shared;
            Completes(limits, w.shared, ClosedMidway(s)) && s !in after.statements && Owned(after, s) == {w.shared.nextId}
  {
    ClosedMidwayEffect(limits, w.shared, s);
    AskingRuns(limits, w, ClosedMidway(s));
  }
}
