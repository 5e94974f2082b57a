/**
  Statements, results and bind uploads of one session, driven by requests whose
  steps run on the session worker. A request that times out stops, but a job it
  already queued may still take effect later. Requests for one statement do not
  overlap; everything else interleaves freely.
*/
module SessionHandles {
  import opened Prelude
  import opened SessionResources
  import opened SessionWorker

  type UploadId = nat

  function Applier(limits: Limits): (Handles, Op) -> (Handles, Reply) {
    (h: Handles, op: Op) => Apply(limits, h, op)
  }

  type Actor = Worker<Handles, Op, Reply>

  /** The counts respect their quotas in every state of every run, timeouts and late effects included. */
  lemma {:induction false} QuotasHold(limits: Limits, w: Actor, steps: seq<SessionWorker.Step<Op>>)
    requires HandlesOk(limits, w.shared)
    ensures HandlesOk(limits, SessionWorker.Run(Applier(limits), w, steps).shared)
  {
    if steps != [] {
      var n := |steps| - 1;
      QuotasHold(limits, w, steps[..n]);
      var before := SessionWorker.Run(Applier(limits), w, steps[..n]);
      if steps[n].Execute? && before.hand.Started? {
        ApplyKeepsQuotas(limits, before.shared, before.hand.job.op);
      }
    }
  }

  // ---- Requests ----

  datatype Kind = Execute | Update | Prepare | Close | StartBind | FinishBind(upload: UploadId)

  /** What a request does next: a worker job, or something it does itself under its own lock. */
  datatype Act = OnWorker(op: Op) | CheckStatement | AddUpload | ClearUploads | TakeUpload(upload: UploadId)

  /** The handlers, step by step. EXECUTE invalidates, runs, and inserts behind a second invalidation. */
  function Program(kind: Kind, s: StatementId, ok: bool): seq<Act> {
    match kind
    case Execute =>
      [OnWorker(Invalidate(s)), OnWorker(UseStatement(s, ok)), OnWorker(Invalidate(s)), OnWorker(InsertResult(Some(s)))]
    case Update => [OnWorker(Invalidate(s)), OnWorker(UseStatement(s, ok))]
    case Prepare => [OnWorker(UseStatement(s, ok))]
    case Close => [OnWorker(RemoveStatement(s)), OnWorker(Invalidate(s)), ClearUploads]
    case StartBind => [CheckStatement, AddUpload]
    case FinishBind(upload) => [TakeUpload(upload), OnWorker(UseStatement(s, ok))]
  }

  /** `wait` is the job the request is waiting for. */
  datatype Request = Request(kind: Kind, pc: nat, wait: Option<nat>)

  /** `closed` remembers the statements whose close returned success. */
  datatype Session = Session(
    w: Actor,
    requests: map<StatementId, Request>,
    uploads: map<UploadId, StatementId>,
    nextUpload: UploadId,
    closed: set<StatementId>)

  function Opened(): Session {
    Session(Fresh(NO_HANDLES), map[], map[], 0, {})
  }

  datatype Step =
    | Background(step: SessionWorker.Step<Op>)     // the worker, and callers' waits
    | OtherCall(op: Op)                            // requests that belong to no statement
    | Begin(s: StatementId, kind: Kind)
    | Submit(s: StatementId, ok: bool)
    | Resume(s: StatementId)
    | Local(s: StatementId)
    | Return(s: StatementId)
    | Fail(s: StatementId)                         // an error met outside the worker
    | CancelUpload(upload: UploadId)

  /** Operations outside the per-statement discipline: none of them names a statement. */
  predicate Unscoped(op: Op) {
    op.NewStatement? || op.ReadResult? || op.CloseResult? || op == InsertResult(None)
  }

  function EndRequest(x: Session, s: StatementId): Session {
    x.(requests := x.requests - {s})
  }

  function Advance(x: Session, s: StatementId): Session
    requires s in x.requests
  {
    x.(requests := x.requests[s := Request(x.requests[s].kind, x.requests[s].pc + 1, None)])
  }

  function NextAct(r: Request, s: StatementId, ok: bool): Option<Act> {
    var program := Program(r.kind, s, ok);
    if r.pc < |program| then Some(program[r.pc]) else None
  }

  function DoSubmit(limits: Limits, x: Session, s: StatementId, ok: bool): Session {
    if s !in x.requests || x.requests[s].wait.Some? then x
    else
      match NextAct(x.requests[s], s, ok)
      case Some(OnWorker(op)) =>
        var id := |x.w.callers|;
        var called := x.(w := SessionWorker.Next(Applier(limits), x.w, Call(op)));
        if |x.w.queue| < QUEUE_CAPACITY then called.(requests := x.requests[s := x.requests[s].(wait := Some(id))])
        else EndRequest(called, s)
      case _ => x
  }

  /** The worker call returned: go on, or give up on an error or a timeout. */
  function DoResume(x: Session, s: StatementId): Session {
    if s !in x.requests || x.requests[s].wait.None? || x.requests[s].wait.value >= |x.w.callers| then x
    else
      match x.w.callers[x.requests[s].wait.value].wait
      case Answered(reply) => if Good(reply) then Advance(x, s) else EndRequest(x, s)
      case TimedOut => EndRequest(x, s)
      case _ => x
  }

  function DoLocal(x: Session, s: StatementId): Session {
    if s !in x.requests || x.requests[s].wait.Some? then x
    else
      match NextAct(x.requests[s], s, true)
      case Some(CheckStatement) => if s in x.w.shared.statements then Advance(x, s) else EndRequest(x, s)
      case Some(AddUpload) => Advance(x.(uploads := x.uploads[x.nextUpload := s], nextUpload := x.nextUpload + 1), s)
      case Some(ClearUploads) =>
        Advance(x.(uploads := map u | u in x.uploads && x.uploads[u] != s :: x.uploads[u]), s)
      case Some(TakeUpload(u)) =>
        if u in x.uploads && x.uploads[u] == s then Advance(x.(uploads := x.uploads - {u}), s) else EndRequest(x, s)
      case _ => x
  }

  /** The request has run its program to the end. */
  predicate Over(x: Session, s: StatementId)
    requires s in x.requests
  {
    NextAct(x.requests[s], s, true).None?
  }

  function DoReturn(x: Session, s: StatementId): Session {
    if s !in x.requests || !Over(x, s) then x
    else if x.requests[s].kind.Close? then EndRequest(x, s).(closed := x.closed + {s})
    else EndRequest(x, s)
  }

  function Next(limits: Limits, x: Session, step: Step): Session {
    match step
    case Background(b) => if b.Call? then x else x.(w := SessionWorker.Next(Applier(limits), x.w, b))
    case OtherCall(op) =>
      if Unscoped(op) then x.(w := SessionWorker.Next(Applier(limits), x.w, Call(op))) else x
    case Begin(s, kind) =>
      if s in x.requests then x else x.(requests := x.requests[s := Request(kind, 0, None)])
    case Submit(s, ok) => DoSubmit(limits, x, s, ok)
    case Resume(s) => DoResume(x, s)
    case Local(s) => DoLocal(x, s)
    case Return(s) => DoReturn(x, s)
    case Fail(s) => if s in x.requests && x.requests[s].wait.None? && !Over(x, s) then EndRequest(x, s) else x
    case CancelUpload(u) => x.(uploads := x.uploads - {u})
  }

  function Run(limits: Limits, x: Session, steps: seq<Step>): Session {
    if steps == [] then x
    else Next(limits, Run(limits, x, steps[..|steps| - 1]), steps[|steps| - 1])
  }

  // ---- At most one live result per statement ----

  ghost predicate NoInsert(jobs: seq<Job<Op>>, s: StatementId) {
    forall i | 0 <= i < |jobs| :: jobs[i].op != InsertResult(Some(s))
  }

  ghost predicate OneInsert(jobs: seq<Job<Op>>, s: StatementId) {
    forall i, j | 0 <= i < j < |jobs| :: jobs[i].op != InsertResult(Some(s)) || jobs[j].op != InsertResult(Some(s))
  }

  /** Live results of `s` and inserts that may still run, together at most one. */
  ghost predicate AtMostOne(w: Actor, s: StatementId) {
    || (Owned(w.shared, s) == {} && OneInsert(Pending(w), s))
    || (|Owned(w.shared, s)| == 1 && NoInsert(Pending(w), s))
  }

  ghost predicate Clean(w: Actor, s: StatementId) {
    Owned(w.shared, s) == {} && NoInsert(Pending(w), s)
  }

  /** Job `id` is pending and no insert of `s` is queued behind it: inserts of earlier requests came first. */
  ghost predicate Covered(jobs: seq<Job<Op>>, id: nat, s: StatementId) {
    exists i | 0 <= i < |jobs| :: jobs[i].id == id && NoInsert(jobs[i + 1..], s)
  }

  /** `r` waits for the invalidation after which it relies on a clean slate. */
  predicate AtBarrier(r: Request) {
    (r.kind.Execute? && r.pc == 2) || (r.kind.Close? && r.pc == 1)
  }

  predicate PastBarrier(r: Request) {
    (r.kind.Execute? && r.pc == 3 && r.wait.None?) || (r.kind.Close? && r.pc >= 2)
  }

  /** Until the caller gives up: the job is covered, and once it has run the slate is clean. */
  ghost predicate BarrierOk(w: Actor, id: nat, s: StatementId) {
    id < |w.callers| && !w.callers[id].wait.TimedOut? ==>
      if id in w.replies then Clean(w, s) else Covered(Pending(w), id, s)
  }

  ghost predicate Gone(w: Actor, s: StatementId) {
    s < w.shared.nextId && s !in w.shared.statements
  }

  predicate NoUpload(uploads: map<UploadId, StatementId>, s: StatementId) {
    forall u | u in uploads :: uploads[u] != s
  }

  /** The job a request waits for carries the operation of its current act. */
  predicate WaitsFor(w: Actor, r: Request, s: StatementId, id: nat) {
    && id < |w.callers|
    && (NextAct(r, s, true) == Some(OnWorker(w.callers[id].op)) || NextAct(r, s, false) == Some(OnWorker(w.callers[id].op)))
  }

  ghost predicate RequestOk(x: Session, s: StatementId)
    requires s in x.requests
  {
    var r := x.requests[s];
    && (r.wait.Some? ==> WaitsFor(x.w, r, s, r.wait.value))
    && (r.wait.Some? && AtBarrier(r) ==> BarrierOk(x.w, r.wait.value, s))
    && (PastBarrier(r) ==> Clean(x.w, s))
    && (r.kind.Close? && (r.pc >= 1 || (r.wait.Some? && r.wait.value in x.w.replies && x.w.replies[r.wait.value] != Missing))
        ==> Gone(x.w, s))
    && (r.kind.Close? && r.pc >= 3 ==> NoUpload(x.uploads, s))
  }

  /** Nothing of an unregistered statement exists, and no request on it can get past the lookup that fails. */
  ghost predicate Barred(x: Session, s: StatementId) {
    && s !in x.w.shared.statements && Clean(x.w, s) && NoUpload(x.uploads, s)
    && (s in x.requests ==>
          var r := x.requests[s];
          && (r.kind.Execute? ==>
                && r.pc <= 1
                && (r.pc == 1 && r.wait.Some? && r.wait.value in x.w.replies ==> x.w.replies[r.wait.value] == Missing))
          && (r.kind.StartBind? || r.kind.FinishBind? ==> r.pc == 0))
  }

  ghost predicate StatementOk(x: Session, s: StatementId) {
    && AtMostOne(x.w, s)
    && (s in x.requests ==> RequestOk(x, s))
    && (s in x.closed ==> s < x.w.shared.nextId)
    && (s in x.closed || s >= x.w.shared.nextId ==> Barred(x, s))
  }

  ghost predicate ActorOk(limits: Limits, w: Actor) {
    SessionWorker.Inv(Applier(limits), NO_HANDLES, w) && HandlesOk(limits, w.shared)
  }

  ghost predicate Inv(limits: Limits, x: Session) {
    ActorOk(limits, x.w) && forall s: StatementId :: StatementOk(x, s)
  }

  // The worker's actions, one statement at a time.

  /** Actions that move no job and run nothing. */
  lemma QuietWorker(x: Session, w: Actor, s: StatementId)
    requires StatementOk(x, s)
    requires Pending(w) == Pending(x.w) && w.shared == x.w.shared && w.replies == x.w.replies
    requires |w.callers| == |x.w.callers|
    requires forall i: nat | i < |w.callers| ::
               w.callers[i].op == x.w.callers[i].op && (x.w.callers[i].wait.TimedOut? ==> w.callers[i].wait.TimedOut?)
    ensures StatementOk(x.(w := w), s)
  {
  }

  lemma CoveredTail(jobs: seq<Job<Op>>, id: nat, s: StatementId)
    requires jobs != [] && Covered(jobs, id, s) && Increasing(jobs)
    ensures if jobs[0].id == id then NoInsert(jobs[1..], s) else Covered(jobs[1..], id, s)
  {
    var i :| 0 <= i < |jobs| && jobs[i].id == id && NoInsert(jobs[i + 1..], s);
    if i > 0 {
      assert jobs[1..][i - 1] == jobs[i];
      assert jobs[1..][i - 1 + 1..] == jobs[i + 1..];
    }
  }

  lemma TailFacts(jobs: seq<Job<Op>>, s: StatementId)
    requires jobs != []
    ensures NoInsert(jobs, s) ==> NoInsert(jobs[1..], s)
    ensures OneInsert(jobs, s) ==> OneInsert(jobs[1..], s)
    ensures OneInsert(jobs, s) && jobs[0].op == InsertResult(Some(s)) ==> NoInsert(jobs[1..], s)
  {
    assert forall i | 0 <= i < |jobs| - 1 :: jobs[1..][i] == jobs[i + 1];
  }

  lemma AppendFacts(jobs: seq<Job<Op>>, job: Job<Op>, s: StatementId)
    ensures job.op != InsertResult(Some(s)) && NoInsert(jobs, s) ==> NoInsert(jobs + [job], s)
    ensures job.op != InsertResult(Some(s)) && OneInsert(jobs, s) ==> OneInsert(jobs + [job], s)
    ensures NoInsert(jobs, s) ==> OneInsert(jobs + [job], s)
    ensures Covered(jobs + [job], job.id, s)
  {
    assert (jobs + [job])[|jobs|] == job && (jobs + [job])[|jobs| + 1..] == [];
  }

  lemma CoveredAppend(jobs: seq<Job<Op>>, job: Job<Op>, id: nat, s: StatementId)
    requires Covered(jobs, id, s) && job.op != InsertResult(Some(s))
    ensures Covered(jobs + [job], id, s)
  {
    var i :| 0 <= i < |jobs| && jobs[i].id == id && NoInsert(jobs[i + 1..], s);
    assert (jobs + [job])[i] == jobs[i];
    assert (jobs + [job])[i + 1..] == jobs[i + 1..] + [job];
  }

  /** What an operation does to the results and the registration of one statement. */
  lemma ApplyOn(limits: Limits, h: Handles, op: Op, s: StatementId)
    requires HandlesOk(limits, h)
    ensures var (after, reply) := Apply(limits, h, op);
            && (if op == InsertResult(Some(s)) then
                  Owned(after, s) == Owned(h, s) || Owned(after, s) == Owned(h, s) + {h.nextId}
                else Owned(after, s) <= Owned(h, s))
            && (op == Invalidate(s) ==> Owned(after, s) == {})
            && (s < h.nextId && s !in h.statements ==> s < after.nextId && s !in after.statements)
            && (op == RemoveStatement(s) && reply != Missing ==> s < after.nextId && s !in after.statements)
            && (op.UseStatement? && op.statement == s && s !in h.statements ==> reply == Missing)
            && h.nextId <= after.nextId
            && (s !in h.statements && s >= after.nextId ==> s !in after.statements)
  {
  }

  /** The worker skipped its oldest job, whose caller had timed out. */
  ghost predicate DidSkip(w: Actor, after: Actor) {
    && Pending(w) != [] && Pending(after) == Pending(w)[1..]
    && after.shared == w.shared && after.replies == w.replies && after.callers == w.callers
    && Pending(w)[0].id < |w.callers| && w.callers[Pending(w)[0].id].wait.TimedOut?
  }

  /** The worker ran its oldest job. */
  ghost predicate DidExecute(limits: Limits, w: Actor, after: Actor) {
    && Pending(w) != [] && Pending(after) == Pending(w)[1..]
    && var job := Pending(w)[0];
       && job.id < |w.callers| && w.callers[job.id].op == job.op && job.id !in w.replies
       && after.shared == Apply(limits, w.shared, job.op).0
       && after.replies == w.replies[job.id := Apply(limits, w.shared, job.op).1]
       && after.callers == w.callers
  }

  /** A caller queued a job. */
  ghost predicate DidCall(w: Actor, after: Actor, op: Op) {
    && Pending(after) == Pending(w) + [Job(|w.callers|, op)]
    && after.shared == w.shared && after.replies == w.replies
    && after.callers == w.callers + [Caller(op, Waiting)]
    && |w.callers| !in w.replies
  }

  /** A queued invalidation keeps its promise while the oldest job leaves. */
  lemma BarrierTail(w: Actor, after: Actor, id: nat, s: StatementId)
    requires Increasing(Pending(w)) && Pending(w) != [] && Pending(after) == Pending(w)[1..]
    requires Covered(Pending(w), id, s)
    ensures if Pending(w)[0].id == id then NoInsert(Pending(after), s) else Covered(Pending(after), id, s)
  {
    CoveredTail(Pending(w), id, s);
  }

  lemma SkipKeeps(x: Session, after: Actor, s: StatementId)
    requires StatementOk(x, s) && Increasing(Pending(x.w)) && DidSkip(x.w, after)
    ensures StatementOk(x.(w := after), s)
  {
    TailFacts(Pending(x.w), s);
    if s in x.requests && x.requests[s].wait.Some? && Covered(Pending(x.w), x.requests[s].wait.value, s) {
      BarrierTail(x.w, after, x.requests[s].wait.value, s);
    }
  }

  lemma ExecuteClean(limits: Limits, w: Actor, after: Actor, s: StatementId)
    requires HandlesOk(limits, w.shared) && DidExecute(limits, w, after)
    ensures Clean(w, s) ==> Clean(after, s)
    ensures AtMostOne(w, s) ==> AtMostOne(after, s)
    ensures Pending(w)[0].op == Invalidate(s) && NoInsert(Pending(after), s) ==> Clean(after, s)
    ensures Gone(w, s) ==> Gone(after, s)
    ensures w.shared.nextId <= after.shared.nextId
  {
    TailFacts(Pending(w), s);
    ApplyOn(limits, w.shared, Pending(w)[0].op, s);
    if |Owned(w.shared, s)| == 1 && Owned(after.shared, s) <= Owned(w.shared, s) {
      Subset(Owned(after.shared, s), Owned(w.shared, s));
    }
  }

  lemma ExecuteBarrier(limits: Limits, x: Session, after: Actor, s: StatementId)
    requires HandlesOk(limits, x.w.shared) && DidExecute(limits, x.w, after) && Increasing(Pending(x.w))
    requires s in x.requests && x.requests[s].wait.Some? && AtBarrier(x.requests[s]) && RequestOk(x, s)
    ensures BarrierOk(after, x.requests[s].wait.value, s)
  {
    var id := x.requests[s].wait.value;
    ExecuteClean(limits, x.w, after, s);
    if Covered(Pending(x.w), id, s) {
      BarrierTail(x.w, after, id, s);
    }
  }

  lemma ExecuteRequest(limits: Limits, x: Session, after: Actor, s: StatementId)
    requires HandlesOk(limits, x.w.shared) && DidExecute(limits, x.w, after) && Increasing(Pending(x.w))
    requires s in x.requests && RequestOk(x, s)
    ensures RequestOk(x.(w := after), s)
  {
    var r := x.requests[s];
    ExecuteClean(limits, x.w, after, s);
    ApplyOn(limits, x.w.shared, Pending(x.w)[0].op, s);
    if r.wait.Some? && AtBarrier(r) {
      ExecuteBarrier(limits, x, after, s);
    }
  }

  lemma ExecuteKeeps(limits: Limits, x: Session, after: Actor, s: StatementId)
    requires HandlesOk(limits, x.w.shared) && DidExecute(limits, x.w, after) && Increasing(Pending(x.w))
    requires StatementOk(x, s)
    ensures StatementOk(x.(w := after), s)
  {
    ExecuteClean(limits, x.w, after, s);
    if s in x.requests {
      ExecuteRequest(limits, x, after, s);
    }
    if s in x.closed || s >= after.shared.nextId {
      ApplyOn(limits, x.w.shared, Pending(x.w)[0].op, s);
    }
  }

  /** Somebody queues a job that is not an insert for `s`. */
  lemma CallKeeps(x: Session, after: Actor, op: Op, s: StatementId)
    requires StatementOk(x, s) && op != InsertResult(Some(s)) && DidCall(x.w, after, op)
    ensures StatementOk(x.(w := after), s)
  {
    var job := Job(|x.w.callers|, op);
    AppendFacts(Pending(x.w), job, s);
    if s in x.requests && x.requests[s].wait.Some? && Covered(Pending(x.w), x.requests[s].wait.value, s) {
      CoveredAppend(Pending(x.w), job, x.requests[s].wait.value, s);
    }
  }

  /** The job in hand is the oldest pending one, its caller's own, and not answered yet. */
  lemma HandFacts(limits: Limits, w: Actor)
    requires ActorOk(limits, w) && !w.hand.Idle?
    ensures Pending(w) != [] && Pending(w)[0] == w.hand.job
    ensures w.hand.job.id < |w.callers| && w.callers[w.hand.job.id].op == w.hand.job.op && w.hand.job.id !in w.replies
  {
    PendingNotReplied(w, 0);
  }

  // The worker's own actions are among the cases above.

  lemma ExecuteCase(limits: Limits, w: Actor)
    requires ActorOk(limits, w) && w.hand.Started?
    ensures DidExecute(limits, w, SessionWorker.Next(Applier(limits), w, SessionWorker.Step.Execute))
  {
    PendingMoves(Applier(limits), w, SessionWorker.Step.Execute);
    HandFacts(limits, w);
  }

  lemma SkipCase(limits: Limits, w: Actor)
    requires ActorOk(limits, w) && w.hand.Fetched? && w.hand.job.id in w.abandoned
    ensures DidSkip(w, SessionWorker.Next(Applier(limits), w, Check))
  {
    PendingMoves(Applier(limits), w, Check);
    HandFacts(limits, w);
  }

  lemma QuietCase(limits: Limits, w: Actor, b: SessionWorker.Step<Op>)
    requires !b.Call? && !(b.Execute? && w.hand.Started?)
    requires !(b.Check? && w.hand.Fetched? && w.hand.job.id in w.abandoned)
    ensures var after := SessionWorker.Next(Applier(limits), w, b);
            && Pending(after) == Pending(w) && after.shared == w.shared && after.replies == w.replies
            && |after.callers| == |w.callers|
            && forall i: nat | i < |w.callers| ::
                 after.callers[i].op == w.callers[i].op && (w.callers[i].wait.TimedOut? ==> after.callers[i].wait.TimedOut?)
  {
    PendingMoves(Applier(limits), w, b);
  }

  lemma CallCase(limits: Limits, w: Actor, op: Op)
    requires ActorOk(limits, w) && |w.queue| < QUEUE_CAPACITY
    ensures DidCall(w, SessionWorker.Next(Applier(limits), w, Call(op)), op)
  {
    PendingMoves(Applier(limits), w, Call(op));
  }

  lemma BackgroundKeeps(limits: Limits, x: Session, b: SessionWorker.Step<Op>, s: StatementId)
    requires ActorOk(limits, x.w) && StatementOk(x, s) && !b.Call?
    ensures StatementOk(x.(w := SessionWorker.Next(Applier(limits), x.w, b)), s)
  {
    var after := SessionWorker.Next(Applier(limits), x.w, b);
    PendingIncreases(x.w);
    if b.Execute? && x.w.hand.Started? {
      ExecuteCase(limits, x.w);
      ExecuteKeeps(limits, x, after, s);
    } else if b.Check? && x.w.hand.Fetched? && x.w.hand.job.id in x.w.abandoned {
      SkipCase(limits, x.w);
      SkipKeeps(x, after, s);
    } else {
      QuietCase(limits, x.w, b);
      QuietWorker(x, after, s);
    }
  }

  lemma ActorKept(limits: Limits, w: Actor, b: SessionWorker.Step<Op>)
    requires ActorOk(limits, w)
    ensures ActorOk(limits, SessionWorker.Next(Applier(limits), w, b))
  {
    SessionWorker.NextKeeps(Applier(limits), NO_HANDLES, w, b);
    if b.Execute? && w.hand.Started? {
      ApplyKeepsQuotas(limits, w.shared, w.hand.job.op);
    }
  }

  // The requests' actions.

  /** A request of another statement moved; uploads of `s` did not appear. */
  lemma OtherStatement(x: Session, after: Session, s: StatementId)
    requires StatementOk(x, s)
    requires after.w == x.w && (s in after.closed <==> s in x.closed)
    requires (s in after.requests <==> s in x.requests) && (s in x.requests ==> after.requests[s] == x.requests[s])
    requires NoUpload(x.uploads, s) ==> NoUpload(after.uploads, s)
    ensures StatementOk(after, s)
  {
  }

  /** The request on `s` ended without success. */
  lemma EndKeeps(x: Session, s: StatementId, any: StatementId)
    requires StatementOk(x, any)
    ensures StatementOk(EndRequest(x, s), any)
  {
    if any != s { OtherStatement(x, EndRequest(x, s), any); }
  }

  lemma SubmitRequest(x: Session, after: Session, s: StatementId, ok: bool, op: Op)
    requires StatementOk(x, s) && DidCall(x.w, after.w, op)
    requires s in x.requests && x.requests[s].wait.None? && NextAct(x.requests[s], s, ok) == Some(OnWorker(op))
    requires after == x.(w := after.w, requests := x.requests[s := x.requests[s].(wait := Some(|x.w.callers|))])
    ensures RequestOk(after, s)
  {
    AppendFacts(Pending(x.w), Job(|x.w.callers|, op), s);
    assert WaitsFor(after.w, after.requests[s], s, |x.w.callers|);
  }

  lemma SubmitOwn(x: Session, after: Session, s: StatementId, ok: bool, op: Op)
    requires StatementOk(x, s) && DidCall(x.w, after.w, op)
    requires s in x.requests && x.requests[s].wait.None? && NextAct(x.requests[s], s, ok) == Some(OnWorker(op))
    requires after == x.(w := after.w, requests := x.requests[s := x.requests[s].(wait := Some(|x.w.callers|))])
    ensures StatementOk(after, s)
  {
    SubmitRequest(x, after, s, ok, op);
    AppendFacts(Pending(x.w), Job(|x.w.callers|, op), s);
  }

  lemma SubmitAccepted(limits: Limits, x: Session, s: StatementId, ok: bool, op: Op, any: StatementId)
    requires ActorOk(limits, x.w) && StatementOk(x, any) && StatementOk(x, s) && |x.w.queue| < QUEUE_CAPACITY
    requires s in x.requests && x.requests[s].wait.None? && NextAct(x.requests[s], s, ok) == Some(OnWorker(op))
    ensures StatementOk(DoSubmit(limits, x, s, ok), any)
  {
    var after := DoSubmit(limits, x, s, ok);
    CallCase(limits, x.w, op);
    if any == s {
      SubmitOwn(x, after, s, ok, op);
    } else {
      assert op != InsertResult(Some(any));
      CallKeeps(x, after.w, op, any);
      OtherStatement(x.(w := after.w), after, any);
    }
  }

  lemma SubmitKeeps(limits: Limits, x: Session, s: StatementId, ok: bool, any: StatementId)
    requires ActorOk(limits, x.w) && StatementOk(x, any) && StatementOk(x, s)
    ensures StatementOk(DoSubmit(limits, x, s, ok), any)
  {
    if s in x.requests && x.requests[s].wait.None? {
      var act := NextAct(x.requests[s], s, ok);
      if act.Some? && act.value.OnWorker? {
        if |x.w.queue| < QUEUE_CAPACITY {
          SubmitAccepted(limits, x, s, ok, act.value.op, any);
        } else {
          RefusedCallKeeps(limits, x, act.value.op, any);
          EndKeeps(x.(w := SessionWorker.Next(Applier(limits), x.w, Call(act.value.op))), s, any);
        }
      }
    }
  }

  lemma RefusedCallKeeps(limits: Limits, x: Session, op: Op, s: StatementId)
    requires StatementOk(x, s) && |x.w.queue| >= QUEUE_CAPACITY
    ensures StatementOk(x.(w := SessionWorker.Next(Applier(limits), x.w, Call(op))), s)
  {
    PendingMoves(Applier(limits), x.w, Call(op));
  }

  lemma OtherCallKeeps(limits: Limits, x: Session, op: Op, s: StatementId)
    requires ActorOk(limits, x.w) && StatementOk(x, s) && Unscoped(op)
    ensures StatementOk(x.(w := SessionWorker.Next(Applier(limits), x.w, Call(op))), s)
  {
    if |x.w.queue| < QUEUE_CAPACITY {
      CallCase(limits, x.w, op);
      CallKeeps(x, SessionWorker.Next(Applier(limits), x.w, Call(op)), op, s);
    } else {
      RefusedCallKeeps(limits, x, op, s);
    }
  }

  /** A successful reply moves the request on with what its operation established. */
  lemma AdvanceKeeps(x: Session, s: StatementId, reply: Reply)
    requires StatementOk(x, s) && s in x.requests && x.requests[s].wait.Some?
    requires var id := x.requests[s].wait.value;
             && id < |x.w.callers| && x.w.callers[id].wait == Answered(reply)
             && id in x.w.replies && x.w.replies[id] == reply && reply != Missing
    ensures StatementOk(Advance(x, s), s)
  {
    assert WaitsFor(x.w, x.requests[s], s, x.requests[s].wait.value);
  }

  lemma ResumeKeeps(limits: Limits, x: Session, s: StatementId, any: StatementId)
    requires ActorOk(limits, x.w) && StatementOk(x, any) && StatementOk(x, s)
    ensures StatementOk(DoResume(x, s), any)
  {
    var after := DoResume(x, s);
    if after != x {
      if s !in after.requests {
        EndKeeps(x, s, any);
      } else if any != s {
        OtherStatement(x, after, any);
      } else {
        AdvanceKeeps(x, s, x.w.callers[x.requests[s].wait.value].wait.result);
      }
    }
  }

  lemma LocalOwnStart(x: Session, s: StatementId)
    requires StatementOk(x, s) && s in x.requests && x.requests[s].kind.StartBind?
    ensures StatementOk(DoLocal(x, s), s)
  {
  }

  lemma LocalOwnFinish(x: Session, s: StatementId)
    requires StatementOk(x, s) && s in x.requests && x.requests[s].kind.FinishBind?
    ensures StatementOk(DoLocal(x, s), s)
  {
  }

  lemma LocalOwnClose(x: Session, s: StatementId)
    requires StatementOk(x, s) && s in x.requests && x.requests[s].kind.Close?
    ensures StatementOk(DoLocal(x, s), s)
  {
  }

  lemma LocalKeeps(x: Session, s: StatementId, any: StatementId)
    requires StatementOk(x, any) && StatementOk(x, s)
    ensures StatementOk(DoLocal(x, s), any)
  {
    if s in x.requests {
      if any != s {
        OtherStatement(x, DoLocal(x, s), any);
      } else if x.requests[s].kind.Close? {
        LocalOwnClose(x, s);
      } else if x.requests[s].kind.StartBind? {
        LocalOwnStart(x, s);
      } else if x.requests[s].kind.FinishBind? {
        LocalOwnFinish(x, s);
      }
    }
  }

  lemma ReturnKeeps(x: Session, s: StatementId, any: StatementId)
    requires StatementOk(x, any) && StatementOk(x, s)
    ensures StatementOk(DoReturn(x, s), any)
  {
    if DoReturn(x, s) != x {
      if any != s {
        OtherStatement(x, DoReturn(x, s), any);
      }
    }
  }

  lemma NextStatement(limits: Limits, x: Session, step: Step, any: StatementId)
    requires Inv(limits, x)
    ensures StatementOk(Next(limits, x, step), any)
  {
    assert StatementOk(x, any);
    match step
    case Background(b) => if !b.Call? { BackgroundKeeps(limits, x, b, any); }
    case OtherCall(op) => if Unscoped(op) { OtherCallKeeps(limits, x, op, any); }
    case Begin(s, kind) => if any != s { OtherStatement(x, Next(limits, x, step), any); }
    case Submit(s, ok) =>
      assert StatementOk(x, s);
      SubmitKeeps(limits, x, s, ok, any);
    case Resume(s) =>
      assert StatementOk(x, s);
      ResumeKeeps(limits, x, s, any);
    case Local(s) =>
      assert StatementOk(x, s);
      LocalKeeps(x, s, any);
    case Return(s) =>
      assert StatementOk(x, s);
      ReturnKeeps(x, s, any);
    case Fail(s) => EndKeeps(x, s, any);
    case CancelUpload(u) => OtherStatement(x, Next(limits, x, step), any);
  }

  lemma NextActor(limits: Limits, x: Session, step: Step)
    requires Inv(limits, x)
    ensures ActorOk(limits, Next(limits, x, step).w)
  {
    match step
    case Background(b) => ActorKept(limits, x.w, b);
    case OtherCall(op) => ActorKept(limits, x.w, Call(op));
    case Submit(s, ok) =>
      if DoSubmit(limits, x, s, ok) != x { ActorKept(limits, x.w, Call(NextAct(x.requests[s], s, ok).value.op)); }
    case _ =>
  }

  lemma {:induction false} RunKeeps(limits: Limits, x: Session, steps: seq<Step>)
    requires Inv(limits, x)
    ensures Inv(limits, Run(limits, x, steps))
  {
    if steps != [] {
      var n := |steps| - 1;
      RunKeeps(limits, x, steps[..n]);
      NextActor(limits, Run(limits, x, steps[..n]), steps[n]);
      forall s: StatementId
        ensures StatementOk(Run(limits, x, steps), s)
      {
        NextStatement(limits, Run(limits, x, steps[..n]), steps[n], s);
      }
    }
  }

  lemma OpenedOk(limits: Limits)
    ensures Inv(limits, Opened())
  {
    forall s: StatementId ensures StatementOk(Opened(), s) { assert Owned(NO_HANDLES, s) == {}; }
  }

  /** Every run: each statement owns at most one live result and the quotas hold, although timed-out
      jobs may still take effect. */
  lemma OneLiveResult(limits: Limits, steps: seq<Step>, s: StatementId)
    ensures var h := Run(limits, Opened(), steps).w.shared;
            && |Owned(h, s)| <= 1
            && |h.statements| <= limits.maxStatements && |h.results| <= limits.maxResults
  {
    OpenedOk(limits);
    RunKeeps(limits, Opened(), steps);
    assert StatementOk(Run(limits, Opened(), steps), s);
  }

  lemma {:induction false} ClosedStays(limits: Limits, x: Session, steps: seq<Step>, s: StatementId)
    requires s in x.closed
    ensures s in Run(limits, x, steps).closed
  {
    if steps != [] {
      ClosedStays(limits, x, steps[..|steps| - 1], s);
    }
  }

  /** After `close_statement` returned success nothing of the statement exists in any later state: no
      registration, no result, no upload, no queued insert; and every use of it is answered Missing. */
  lemma ClosedIsGone(limits: Limits, before: seq<Step>, after: seq<Step>, s: StatementId, ok: bool)
    requires s in Run(limits, Opened(), before).closed
    ensures var x := Run(limits, Run(limits, Opened(), before), after);
            && s !in x.w.shared.statements && Owned(x.w.shared, s) == {}
            && NoUpload(x.uploads, s) && NoInsert(Pending(x.w), s)
            && Apply(limits, x.w.shared, UseStatement(s, ok)).1 == Missing
  {
    var closed := Run(limits, Opened(), before);
    OpenedOk(limits);
    RunKeeps(limits, Opened(), before);
    RunKeeps(limits, closed, after);
    ClosedStays(limits, closed, after, s);
    assert StatementOk(Run(limits, closed, after), s);
  }

  /** A statement that has not been issued yet has no result, no upload and no queued insert, in any run. */
  lemma UnissuedIsClean(limits: Limits, steps: seq<Step>, s: StatementId)
    requires s >= Run(limits, Opened(), steps).w.shared.nextId
    ensures var x := Run(limits, Opened(), steps);
            && s !in x.w.shared.statements && Owned(x.w.shared, s) == {}
            && NoInsert(Pending(x.w), s) && NoUpload(x.uploads, s)
  {
    OpenedOk(limits);
    RunKeeps(limits, Opened(), steps);
    assert StatementOk(Run(limits, Opened(), steps), s);
  }

  /**
    A statement whose handle could not be returned, in any run and whatever the worker runs in between
    that does not name it: `close_statement` takes back exactly that statement, and finds no result to
    invalidate and no upload to clear.
  */
  lemma StatementCleanupExact(limits: Limits, steps: seq<Step>, between: seq<Op>)
    requires forall i | 0 <= i < |between| :: !Names(between[i], Run(limits, Opened(), steps).w.shared.nextId)
    ensures var x := Run(limits, Opened(), steps);
            var (created, reply) := Apply(limits, x.w.shared, NewStatement(true));
            reply.Handle? ==>
              var current := ApplyAll(limits, created, between);
              var removed := current.(statements := current.statements - {reply.id});
              && reply.id !in x.w.shared.statements
              && Apply(limits, current, RemoveStatement(reply.id)) == (removed, Done)
              && Apply(limits, removed, Invalidate(reply.id)) == (removed, Done)
              && NoUpload(x.uploads, reply.id)
  {
    var h := Run(limits, Opened(), steps).w.shared;
    var (created, reply) := Apply(limits, h, NewStatement(true));
    UnissuedIsClean(limits, steps, h.nextId);
    if reply.Handle? {
      assert Owned(created, reply.id) == Owned(h, reply.id);
      UnnamedStays(limits, created, between, reply.id);
      NothingToInvalidate(limits, ApplyAll(limits, created, between), reply.id);
    }
  }

  lemma NothingToInvalidate(limits: Limits, h: Handles, s: StatementId)
    requires Owned(h, s) == {}
    ensures var removed := h.(statements := h.statements - {s});
            Apply(limits, removed, Invalidate(s)) == (removed, Done)
  {
    var removed := h.(statements := h.statements - {s});
    assert Owned(removed, s) == {};
    assert removed.results - {} == removed.results;
  }

  // ---- A request alone ----

  /** Nothing is queued and the worker is idle. */
  predicate Quiescent(w: Actor) {
    w.hand.Idle? && w.queue == []
  }

  lemma RunNext(limits: Limits, x: Session, steps: seq<Step>, step: Step)
    ensures Run(limits, x, steps + [step]) == Next(limits, Run(limits, x, steps), step)
  {
    assert (steps + [step])[..|steps|] == steps;
  }

  lemma {:induction false} RunJoin(limits: Limits, x: Session, a: seq<Step>, b: seq<Step>)
    ensures Run(limits, x, a + b) == Run(limits, Run(limits, x, a), b)
  {
    if b == [] {
      assert a + b == a;
    } else {
      var n := |b| - 1;
      RunJoin(limits, x, a, b[..n]);
      RunNext(limits, x, a + b[..n], b[n]);
      assert a + b == a + b[..n] + [b[n]];
    }
  }

  /** One step of a request through the idle worker: `id` is the number of its call. */
  function Round(s: StatementId, ok: bool, id: nat): seq<Step> {
    [Submit(s, ok)] + [Background(Fetch)] + [Background(Check)] + [Background(SessionWorker.Step.Execute)]
    + [Background(Receive(id))] + [Resume(s)]
  }

  lemma RoundUnfolds(limits: Limits, x: Session, s: StatementId, ok: bool, id: nat)
    ensures var apply := Applier(limits);
            var submitted := DoSubmit(limits, x, s, ok);
            var fetched := SessionWorker.Next(apply, submitted.w, Fetch);
            var started := SessionWorker.Next(apply, fetched, Check);
            var executed := SessionWorker.Next(apply, started, SessionWorker.Step.Execute);
            var received := SessionWorker.Next(apply, executed, Receive(id));
            Run(limits, x, Round(s, ok, id)) == DoResume(submitted.(w := received), s)
  {
    var a := [Submit(s, ok)];
    var b := a + [Background(Fetch)];
    var c := b + [Background(Check)];
    var d := c + [Background(SessionWorker.Step.Execute)];
    RunNext(limits, x, [], Submit(s, ok));
    assert [] + a == a;
    RunNext(limits, x, a, Background(Fetch));
    RunNext(limits, x, b, Background(Check));
    RunNext(limits, x, c, Background(SessionWorker.Step.Execute));
    RunNext(limits, x, d, Background(Receive(id)));
    RunNext(limits, x, d + [Background(Receive(id))], Resume(s));
  }

  lemma SubmitTaken(limits: Limits, x: Session, s: StatementId, ok: bool, op: Op)
    requires |x.w.queue| < QUEUE_CAPACITY
    requires s in x.requests && x.requests[s].wait.None? && NextAct(x.requests[s], s, ok) == Some(OnWorker(op))
    ensures DoSubmit(limits, x, s, ok) ==
            x.(w := SessionWorker.Next(Applier(limits), x.w, Call(op)),
               requests := x.requests[s := x.requests[s].(wait := Some(|x.w.callers|))])
  {
  }

  lemma ResumeTaken(x: Session, s: StatementId, w: Actor, reply: Reply)
    requires s in x.requests && x.requests[s].wait.None?
    requires |w.callers| == |x.w.callers| + 1 && w.callers[|x.w.callers|].wait == Answered(reply)
    ensures DoResume(x.(w := w, requests := x.requests[s := x.requests[s].(wait := Some(|x.w.callers|))]), s) ==
            (if Good(reply) then Advance(x, s) else EndRequest(x, s)).(w := w)
  {
    var waiting := x.(w := w, requests := x.requests[s := x.requests[s].(wait := Some(|x.w.callers|))]);
    assert Advance(waiting, s).requests == Advance(x, s).requests;
    assert waiting.requests - {s} == x.requests - {s};
  }

  /** The worker after it has served one call alone. */
  function Served(limits: Limits, w: Actor, op: Op): Actor {
    var apply := Applier(limits);
    var fetched := SessionWorker.Next(apply, SessionWorker.Next(apply, w, Call(op)), Fetch);
    var executed := SessionWorker.Next(apply, SessionWorker.Next(apply, fetched, Check), SessionWorker.Step.Execute);
    SessionWorker.Next(apply, executed, Receive(|w.callers|))
  }

  lemma ServedKeeps(limits: Limits, w: Actor, op: Op)
    requires ActorOk(limits, w)
    ensures ActorOk(limits, Served(limits, w, op))
  {
    var apply := Applier(limits);
    var called := SessionWorker.Next(apply, w, Call(op));
    var fetched := SessionWorker.Next(apply, called, Fetch);
    var started := SessionWorker.Next(apply, fetched, Check);
    ActorKept(limits, w, Call(op));
    ActorKept(limits, called, Fetch);
    ActorKept(limits, fetched, Check);
    ActorKept(limits, started, SessionWorker.Step.Execute);
    ActorKept(limits, SessionWorker.Next(apply, started, SessionWorker.Step.Execute), Receive(|w.callers|));
  }

  /** Where a request that took its step on worker `w` with `reply` stands. */
  function Replied(x: Session, s: StatementId, w: Actor, reply: Reply): Session
    requires s in x.requests
  {
    (if Good(reply) then Advance(x, s) else EndRequest(x, s)).(w := w)
  }

  /** The operations that the worker has taken up, run or skipped, in order. */
  function Performed(w: Actor): (ops: seq<Op>)
    ensures |ops| == |w.outcomes| && forall i | 0 <= i < |ops| :: ops[i] == w.outcomes[i].job.op
  {
    seq(|w.outcomes|, i requires 0 <= i < |w.outcomes| => w.outcomes[i].job.op)
  }

  lemma PerformedNext(w: Actor, after: Actor, outcome: Outcome<Handles, Op, Reply>)
    requires after.outcomes == w.outcomes + [outcome]
    ensures Performed(after) == Performed(w) + [outcome.job.op]
  {
  }

  /** A step of a request on `s`, or of the worker itself. */
  predicate Mine(step: Step, s: StatementId, kind: Kind, ok: bool) {
    || step == Begin(s, kind) || step == Submit(s, ok) || step == Resume(s) || step == Local(s) || step == Return(s)
    || (step.Background? && (step.step.Fetch? || step.step.Check? || step.step.Execute? || step.step.Receive?))
  }

  predicate AllMine(steps: seq<Step>, s: StatementId, kind: Kind, ok: bool) {
    forall i | 0 <= i < |steps| :: Mine(steps[i], s, kind, ok)
  }

  lemma RoundMine(s: StatementId, kind: Kind, ok: bool, id: nat)
    ensures AllMine(Round(s, ok, id), s, kind, ok)
  {
  }

  /** The step is taken: its operation runs on the current state, and the request goes on or stops with its reply. */
  lemma RoundTaken(limits: Limits, x: Session, s: StatementId, ok: bool, op: Op) returns (steps: seq<Step>, w: Actor)
    requires ActorOk(limits, x.w) && Quiescent(x.w)
    requires s in x.requests && x.requests[s].wait.None? && NextAct(x.requests[s], s, ok) == Some(OnWorker(op))
    ensures AllMine(steps, s, x.requests[s].kind, ok) && ActorOk(limits, w) && Quiescent(w)
    ensures w.shared == Apply(limits, x.w.shared, op).0 && Performed(w) == Performed(x.w) + [op]
    ensures Run(limits, x, steps) == Replied(x, s, w, Apply(limits, x.w.shared, op).1)
  {
    steps, w := Round(s, ok, |x.w.callers|), Served(limits, x.w, op);
    RoundMine(s, x.requests[s].kind, ok, |x.w.callers|);
    ServedAlone(Applier(limits), NO_HANDLES, x.w, op);
    PerformedNext(x.w, w, Ran(Job(|x.w.callers|, op), x.w.shared, Apply(limits, x.w.shared, op).1));
    ServedKeeps(limits, x.w, op);
    SubmitTaken(limits, x, s, ok, op);
    RoundUnfolds(limits, x, s, ok, |x.w.callers|);
    ResumeTaken(x, s, w, Apply(limits, x.w.shared, op).1);
  }

  /** `x` with a request on `s` before its step `r`. */
  function Midway(x: Session, w: Actor, s: StatementId, kind: Kind, r: nat): Session {
    x.(w := w, requests := x.requests[s := Request(kind, r, None)])
  }

  lemma MidwayReplied(x: Session, w: Actor, s: StatementId, kind: Kind, r: nat, after: Actor, reply: Reply)
    requires s !in x.requests
    ensures Replied(Midway(x, w, s, kind, r), s, after, reply) ==
            if Good(reply) then Midway(x, after, s, kind, r + 1) else x.(w := after)
  {
    var requests := x.requests[s := Request(kind, r, None)];
    assert requests - {s} == x.requests;
    assert requests[s := Request(kind, r + 1, None)] == x.requests[s := Request(kind, r + 1, None)];
  }

  lemma MidwayReturned(limits: Limits, x: Session, w: Actor, s: StatementId, kind: Kind)
    requires s !in x.requests
    ensures Next(limits, Midway(x, w, s, kind, |Program(kind, s, true)|), Return(s)) ==
            x.(w := w, closed := if kind.Close? then x.closed + {s} else x.closed)
  {
    assert x.requests[s := Request(kind, |Program(kind, s, true)|, None)] - {s} == x.requests;
  }

  lemma MidwayActs(x: Session, w: Actor, s: StatementId, kind: Kind, ok: bool, r: nat, op: Op)
    requires r < |Program(kind, s, ok)| && Program(kind, s, ok)[r] == OnWorker(op)
    ensures var y := Midway(x, w, s, kind, r);
            s in y.requests && y.requests[s].wait.None? && NextAct(y.requests[s], s, ok) == Some(OnWorker(op))
  {
  }

  /** One round of a request: a good reply takes it to its next step, any other ends it. */
  lemma MidwayRound(limits: Limits, x: Session, w: Actor, s: StatementId, kind: Kind, ok: bool, r: nat, op: Op)
    returns (steps: seq<Step>, after: Actor)
    requires s !in x.requests && r < |Program(kind, s, ok)| && Program(kind, s, ok)[r] == OnWorker(op)
    requires ActorOk(limits, w) && Quiescent(w)
    ensures AllMine(steps, s, kind, ok) && ActorOk(limits, after) && Quiescent(after)
    ensures after.shared == Apply(limits, w.shared, op).0 && Performed(after) == Performed(w) + [op]
    ensures Run(limits, Midway(x, w, s, kind, r), steps) ==
            if Good(Apply(limits, w.shared, op).1) then Midway(x, after, s, kind, r + 1) else x.(w := after)
  {
    MidwayActs(x, w, s, kind, ok, r, op);
    steps, after := RoundTaken(limits, Midway(x, w, s, kind, r), s, ok, op);
    MidwayReplied(x, w, s, kind, r, after, Apply(limits, w.shared, op).1);
  }

  // ---- Every request, alone ----

  /** What a request has brought about: handles, uploads, the operations performed, and whether it goes on. */
  datatype Effect = Effect(h: Handles, uploads: map<UploadId, StatementId>, nextUpload: UploadId, ops: seq<Op>, done: bool)

  function Without(uploads: map<UploadId, StatementId>, s: StatementId): map<UploadId, StatementId> {
    map u | u in uploads && uploads[u] != s :: uploads[u]
  }

  function Acted(limits: Limits, e: Effect, s: StatementId, act: Act): Effect {
    match act
    case OnWorker(op) =>
      var (after, reply) := Apply(limits, e.h, op);
      e.(h := after, ops := e.ops + [op], done := Good(reply))
    case CheckStatement => e.(done := s in e.h.statements)
    case AddUpload => e.(uploads := e.uploads[e.nextUpload := s], nextUpload := e.nextUpload + 1)
    case ClearUploads => e.(uploads := Without(e.uploads, s))
    case TakeUpload(u) => if u in e.uploads && e.uploads[u] == s then e.(uploads := e.uploads - {u}) else e.(done := false)
  }

  /** The acts one after the other, up to the first that fails. */
  function Effects(limits: Limits, e: Effect, s: StatementId, program: seq<Act>): Effect
    decreases |program|
  {
    if program == [] || !e.done then e else Effects(limits, Acted(limits, e, s, program[0]), s, program[1..])
  }

  function With(x: Session, w: Actor, e: Effect): Session {
    x.(w := w, uploads := e.uploads, nextUpload := e.nextUpload)
  }

  /** The idle worker `w` is where the effect says, `base` being what it had performed before. */
  ghost predicate Matches(limits: Limits, base: seq<Op>, w: Actor, e: Effect) {
    ActorOk(limits, w) && Quiescent(w) && w.shared == e.h && Performed(w) == base + e.ops
  }

  lemma OneStep(limits: Limits, x: Session, step: Step)
    ensures Run(limits, x, [step]) == Next(limits, x, step)
  {
    RunNext(limits, x, [], step);
    assert [] + [step] == [step];
  }

  /** A step that a request takes itself, under its own lock. */
  lemma MidwayLocal(limits: Limits, x: Session, w: Actor, e: Effect, s: StatementId, kind: Kind, r: nat)
    requires s !in x.requests && x.uploads == e.uploads && x.nextUpload == e.nextUpload && w.shared == e.h && e.done
    requires r < |Program(kind, s, true)| && !Program(kind, s, true)[r].OnWorker?
    ensures var after := Acted(limits, e, s, Program(kind, s, true)[r]);
            Next(limits, Midway(x, w, s, kind, r), Local(s)) ==
            if after.done then Midway(With(x, w, after), w, s, kind, r + 1) else With(x, w, after)
  {
    var requests := x.requests[s := Request(kind, r, None)];
    assert requests - {s} == x.requests;
    assert requests[s := Request(kind, r + 1, None)] == x.requests[s := Request(kind, r + 1, None)];
  }

  lemma LocalActs(kind: Kind, s: StatementId, ok: bool, r: nat)
    requires r < |Program(kind, s, ok)| && !Program(kind, s, ok)[r].OnWorker?
    ensures r < |Program(kind, s, true)| && Program(kind, s, true)[r] == Program(kind, s, ok)[r]
    ensures |Program(kind, s, true)| == |Program(kind, s, ok)|
  {
  }

  lemma ProgramLength(kind: Kind, s: StatementId, ok: bool)
    ensures |Program(kind, s, true)| == |Program(kind, s, ok)|
  {
  }

  /** One act of a request alone: the effect is the act's. */
  lemma ActStep(limits: Limits, x: Session, w: Actor, e: Effect, s: StatementId, kind: Kind, ok: bool, r: nat, act: Act, base: seq<Op>)
    returns (steps: seq<Step>, after: Actor, y: Session)
    requires s !in x.requests && r < |Program(kind, s, ok)| && Program(kind, s, ok)[r] == act && e.done
    requires Matches(limits, base, w, e) && x.uploads == e.uploads && x.nextUpload == e.nextUpload
    ensures AllMine(steps, s, kind, ok) && Matches(limits, base, after, Acted(limits, e, s, act))
    ensures y == Run(limits, Midway(x, w, s, kind, r), steps)
    ensures y == Stood(x, after, Acted(limits, e, s, act), s, kind, r + 1)
  {
    if act.OnWorker? {
      steps, after := MidwayRound(limits, x, w, s, kind, ok, r, act.op);
      Associative(base, e.ops, [act.op]);
    } else {
      LocalActs(kind, s, ok, r);
      steps, after := [Local(s)], w;
      OneStep(limits, Midway(x, w, s, kind, r), Local(s));
      MidwayLocal(limits, x, w, e, s, kind, r);
    }
    y := Stood(x, after, Acted(limits, e, s, act), s, kind, r + 1);
  }

  /** Where a request stands after an act: at its next step, or it has ended. */
  function Stood(x: Session, w: Actor, e: Effect, s: StatementId, kind: Kind, r: nat): Session {
    if e.done then Midway(With(x, w, e), w, s, kind, r) else With(x, w, e)
  }

  /** The session that a request which stood at `x` leaves behind. */
  function Left(x: Session, w: Actor, e: Effect, s: StatementId, kind: Kind): Session {
    With(x, w, e).(closed := if kind.Close? && e.done then x.closed + {s} else x.closed)
  }

  lemma MineJoined(a: seq<Step>, b: seq<Step>, s: StatementId, kind: Kind, ok: bool)
    requires AllMine(a, s, kind, ok) && AllMine(b, s, kind, ok)
    ensures AllMine(a + b, s, kind, ok)
  {
  }

  lemma RunsJoined(limits: Limits, x: Session, first: seq<Step>, y: Session, rest: seq<Step>)
    requires Run(limits, x, first) == y
    ensures Run(limits, x, first + rest) == Run(limits, y, rest)
  {
    RunJoin(limits, x, first, rest);
  }

  lemma EndReturns(limits: Limits, x: Session, w: Actor, e: Effect, s: StatementId, kind: Kind, ok: bool)
    requires s !in x.requests && e.done && x.uploads == e.uploads && x.nextUpload == e.nextUpload
    ensures Run(limits, Midway(x, w, s, kind, |Program(kind, s, ok)|), [Return(s)]) == Left(x, w, e, s, kind)
  {
    ProgramLength(kind, s, ok);
    OneStep(limits, Midway(x, w, s, kind, |Program(kind, s, ok)|), Return(s));
    MidwayReturned(limits, x, w, s, kind);
  }

  /** The rest of a request alone, from its step `r` on. */
  lemma {:induction false} RestRuns(limits: Limits, x: Session, w: Actor, e: Effect, s: StatementId, kind: Kind, ok: bool, r: nat,
                                    program: seq<Act>, base: seq<Op>)
    returns (steps: seq<Step>, after: Actor, end: Effect)
    requires s !in x.requests && program == Program(kind, s, ok) && r <= |program| && e.done
    requires Matches(limits, base, w, e) && x.uploads == e.uploads && x.nextUpload == e.nextUpload
    ensures end == Effects(limits, e, s, program[r..])
    ensures AllMine(steps, s, kind, ok) && Matches(limits, base, after, end)
    ensures Run(limits, Midway(x, w, s, kind, r), steps) == Left(x, after, end, s, kind)
    decreases |program| - r
  {
    if r == |program| {
      steps, after, end := [Return(s)], w, e;
      EndReturns(limits, x, w, e, s, kind, ok);
      return;
    }
    var reached := Acted(limits, e, s, program[r]);
    var y;
    steps, after, y := ActStep(limits, x, w, e, s, kind, ok, r, program[r], base);
    EffectsAt(limits, e, s, program, r);
    if reached.done {
      var rest, last;
      var here := With(x, after, reached);
      rest, last, end := RestRuns(limits, here, after, reached, s, kind, ok, r + 1, program, base);
      RunsJoined(limits, Midway(x, w, s, kind, r), steps, y, rest);
      LeftOver(x, after, reached, last, end, s, kind);
      MineJoined(steps, rest, s, kind, ok);
      steps, after := steps + rest, last;
    } else {
      end := reached;
    }
  }

  lemma EffectsAt(limits: Limits, e: Effect, s: StatementId, program: seq<Act>, r: nat)
    requires e.done && r < |program|
    ensures Effects(limits, e, s, program[r..]) == Effects(limits, Acted(limits, e, s, program[r]), s, program[r + 1..])
    ensures !Acted(limits, e, s, program[r]).done ==>
              Effects(limits, e, s, program[r..]) == Acted(limits, e, s, program[r])
  {
    assert program[r..][0] == program[r] && program[r..][1..] == program[r + 1..];
  }

  lemma LeftOver(x: Session, next: Actor, reached: Effect, after: Actor, end: Effect, s: StatementId, kind: Kind)
    ensures Left(With(x, next, reached), after, end, s, kind) == Left(x, after, end, s, kind)
  {
  }

  /** `h` without the results of `s`. */
  function Cleaned(h: Handles, s: StatementId): Handles {
    h.(results := h.results - Owned(h, s))
  }

  /** What an EXECUTE leaves behind: an unknown statement or a failed execution only loses its results;
      a successful one replaces them by one new result, unless the quota is reached. */
  function ExecuteEffect(limits: Limits, h: Handles, s: StatementId, ok: bool): Handles {
    var clean := Cleaned(h, s);
    if s !in h.statements || !ok then clean
    else if |clean.results| >= limits.maxResults then clean.(nextId := h.nextId + 1)
    else clean.(results := clean.results[h.nextId := Some(s)], nextId := h.nextId + 1)
  }

  /** The replies that an EXECUTE meets, and what they leave. */
  lemma ExecuteReplies(limits: Limits, h: Handles, s: StatementId, ok: bool)
    ensures var clean := Cleaned(h, s);
            && Apply(limits, h, Invalidate(s)) == (clean, Done) && Apply(limits, clean, Invalidate(s)) == (clean, Done)
            && Apply(limits, clean, UseStatement(s, ok)).0 == clean
            && (Good(Apply(limits, clean, UseStatement(s, ok)).1) <==> s in h.statements && ok)
            && (s in h.statements && ok ==> Apply(limits, clean, InsertResult(Some(s))).0 == ExecuteEffect(limits, h, s, ok))
            && (Good(Apply(limits, clean, InsertResult(Some(s))).1) <==> |clean.results| < limits.maxResults)
            && (!(s in h.statements && ok) ==> clean == ExecuteEffect(limits, h, s, ok))
  {
    var clean := Cleaned(h, s);
    assert Owned(clean, s) == {};
    assert clean.results - {} == clean.results;
  }

  /**
    What each kind of request comes to on its own, in plain terms: the handles and uploads that it
    leaves, the operations that the worker performed for it, and whether it succeeded.
  */
  function AloneEffect(limits: Limits, x: Session, s: StatementId, kind: Kind, ok: bool): Effect {
    var h, uploads, next := x.w.shared, x.uploads, x.nextUpload;
    var known := s in h.statements;
    match kind
    case Execute =>
      Effect(ExecuteEffect(limits, h, s, ok), uploads, next,
             if known && ok then [Invalidate(s), UseStatement(s, ok), Invalidate(s), InsertResult(Some(s))]
             else [Invalidate(s), UseStatement(s, ok)],
             known && ok && |Cleaned(h, s).results| < limits.maxResults)
    case Update => Effect(Cleaned(h, s), uploads, next, [Invalidate(s), UseStatement(s, ok)], known && ok)
    case Prepare => Effect(h, uploads, next, [UseStatement(s, ok)], known && ok)
    case Close =>
      if known then
        Effect(Cleaned(h, s).(statements := h.statements - {s}), Without(uploads, s), next, [RemoveStatement(s), Invalidate(s)], true)
      else Effect(h, uploads, next, [RemoveStatement(s)], false)
    case StartBind =>
      if known then Effect(h, uploads[next := s], next + 1, [], true) else Effect(h, uploads, next, [], false)
    case FinishBind(u) =>
      if u in uploads && uploads[u] == s then Effect(h, uploads - {u}, next, [UseStatement(s, ok)], known && ok)
      else Effect(h, uploads, next, [], false)
  }

  lemma EffectsNext(limits: Limits, e: Effect, s: StatementId, act: Act, rest: seq<Act>)
    requires e.done
    ensures Effects(limits, e, s, [act] + rest) == Effects(limits, Acted(limits, e, s, act), s, rest)
  {
    assert ([act] + rest)[1..] == rest;
  }

  /** The second half of an EXECUTE: invalidate again, then insert. */
  lemma InsertEffects(limits: Limits, e: Effect, h: Handles, s: StatementId)
    requires e.done && e.h == Cleaned(h, s) && s in h.statements
    ensures var reached := Effects(limits, e, s, [OnWorker(Invalidate(s))] + [OnWorker(InsertResult(Some(s)))]);
            && reached == e.(h := ExecuteEffect(limits, h, s, true), ops := e.ops + [Invalidate(s)] + [InsertResult(Some(s))],
                             done := reached.done)
            && (reached.done <==> |Cleaned(h, s).results| < limits.maxResults)
  {
    var insert := OnWorker(InsertResult(Some(s)));
    ExecuteReplies(limits, h, s, true);
    EffectsNext(limits, e, s, OnWorker(Invalidate(s)), [insert]);
    assert [insert] + [] == [insert];
    EffectsNext(limits, Acted(limits, e, s, OnWorker(Invalidate(s))), s, insert, []);
  }

  lemma ExecuteEffects(limits: Limits, e: Effect, s: StatementId, ok: bool)
    requires e.done && e.ops == []
    ensures var reached := Effects(limits, e, s, Program(Kind.Execute, s, ok));
            && reached.h == ExecuteEffect(limits, e.h, s, ok) && reached.uploads == e.uploads && reached.nextUpload == e.nextUpload
            && reached.ops == (if s in e.h.statements && ok
                               then [Invalidate(s), UseStatement(s, ok), Invalidate(s), InsertResult(Some(s))]
                               else [Invalidate(s), UseStatement(s, ok)])
            && (reached.done <==> s in e.h.statements && ok && |Cleaned(e.h, s).results| < limits.maxResults)
  {
    var again := [OnWorker(Invalidate(s))] + [OnWorker(InsertResult(Some(s)))];
    var use := [OnWorker(UseStatement(s, ok))] + again;
    assert Program(Kind.Execute, s, ok) == [OnWorker(Invalidate(s))] + use;
    ExecuteReplies(limits, e.h, s, ok);
    EffectsNext(limits, e, s, OnWorker(Invalidate(s)), use);
    var cleared := Acted(limits, e, s, OnWorker(Invalidate(s)));
    EffectsNext(limits, cleared, s, OnWorker(UseStatement(s, ok)), again);
    var used := Acted(limits, cleared, s, OnWorker(UseStatement(s, ok)));
    if used.done {
      InsertEffects(limits, used, e.h, s);
    }
  }

  lemma CloseEffects(limits: Limits, e: Effect, s: StatementId, ok: bool)
    requires e.done && e.ops == []
    ensures Effects(limits, e, s, Program(Close, s, ok)) ==
            if s in e.h.statements then
              Effect(Cleaned(e.h, s).(statements := e.h.statements - {s}), Without(e.uploads, s), e.nextUpload,
                     [RemoveStatement(s), Invalidate(s)], true)
            else Effect(e.h, e.uploads, e.nextUpload, [RemoveStatement(s)], false)
  {
    var clear := [ClearUploads];
    var invalidate := [OnWorker(Invalidate(s))] + clear;
    assert Program(Close, s, ok) == [OnWorker(RemoveStatement(s))] + invalidate && clear + [] == clear;
    EffectsNext(limits, e, s, OnWorker(RemoveStatement(s)), invalidate);
    var removed := Acted(limits, e, s, OnWorker(RemoveStatement(s)));
    if removed.done {
      assert Owned(removed.h, s) == Owned(e.h, s);
      EffectsNext(limits, removed, s, OnWorker(Invalidate(s)), clear);
      EffectsNext(limits, Acted(limits, removed, s, OnWorker(Invalidate(s))), s, ClearUploads, []);
    }
  }

  lemma UpdateEffects(limits: Limits, e: Effect, s: StatementId, ok: bool)
    requires e.done && e.ops == []
    ensures Effects(limits, e, s, Program(Update, s, ok)) ==
            Effect(Cleaned(e.h, s), e.uploads, e.nextUpload, [Invalidate(s), UseStatement(s, ok)], s in e.h.statements && ok)
    ensures Effects(limits, e, s, Program(Prepare, s, ok)) ==
            Effect(e.h, e.uploads, e.nextUpload, [UseStatement(s, ok)], s in e.h.statements && ok)
  {
    var use := [OnWorker(UseStatement(s, ok))];
    assert Program(Update, s, ok) == [OnWorker(Invalidate(s))] + use && use + [] == use;
    EffectsNext(limits, e, s, OnWorker(Invalidate(s)), use);
    EffectsNext(limits, Acted(limits, e, s, OnWorker(Invalidate(s))), s, OnWorker(UseStatement(s, ok)), []);
    EffectsNext(limits, e, s, OnWorker(UseStatement(s, ok)), []);
  }

  lemma BindEffects(limits: Limits, e: Effect, s: StatementId, ok: bool, u: UploadId)
    requires e.done && e.ops == []
    ensures Effects(limits, e, s, Program(StartBind, s, ok)) ==
            if s in e.h.statements then Effect(e.h, e.uploads[e.nextUpload := s], e.nextUpload + 1, [], true)
            else Effect(e.h, e.uploads, e.nextUpload, [], false)
    ensures Effects(limits, e, s, Program(FinishBind(u), s, ok)) ==
            if u in e.uploads && e.uploads[u] == s then
              Effect(e.h, e.uploads - {u}, e.nextUpload, [UseStatement(s, ok)], s in e.h.statements && ok)
            else Effect(e.h, e.uploads, e.nextUpload, [], false)
  {
    var add := [AddUpload];
    assert Program(StartBind, s, ok) == [CheckStatement] + add && add + [] == add;
    EffectsNext(limits, e, s, CheckStatement, add);
    if s in e.h.statements {
      EffectsNext(limits, Acted(limits, e, s, CheckStatement), s, AddUpload, []);
    }
    var use := [OnWorker(UseStatement(s, ok))];
    assert Program(FinishBind(u), s, ok) == [TakeUpload(u)] + use && use + [] == use;
    EffectsNext(limits, e, s, TakeUpload(u), use);
    var taken := Acted(limits, e, s, TakeUpload(u));
    if taken.done {
      EffectsNext(limits, taken, s, OnWorker(UseStatement(s, ok)), []);
    }
  }

  lemma AloneEffects(limits: Limits, x: Session, s: StatementId, kind: Kind, ok: bool)
    ensures Effects(limits, Effect(x.w.shared, x.uploads, x.nextUpload, [], true), s, Program(kind, s, ok))
            == AloneEffect(limits, x, s, kind, ok)
  {
    var e := Effect(x.w.shared, x.uploads, x.nextUpload, [], true);
    match kind
    case Execute => ExecuteEffects(limits, e, s, ok);
    case Close => CloseEffects(limits, e, s, ok);
    case Update => UpdateEffects(limits, e, s, ok);
    case Prepare => UpdateEffects(limits, e, s, ok);
    case StartBind => BindEffects(limits, e, s, ok, 0);
    case FinishBind(u) => BindEffects(limits, e, s, ok, u);
  }

  /**
    Every kind of request, alone on an idle worker, whatever the session holds and whatever requests on
    other statements wait: it runs from its beginning to its end with exactly the effect above, and
    leaves nothing else changed. A close that succeeds is remembered as closed.
  */
  lemma RequestAlone(limits: Limits, x: Session, s: StatementId, kind: Kind, ok: bool) returns (steps: seq<Step>)
    requires ActorOk(limits, x.w) && Quiescent(x.w) && s !in x.requests
    ensures AllMine(steps, s, kind, ok) && steps != [] && steps[0] == Begin(s, kind)
    ensures var e := AloneEffect(limits, x, s, kind, ok);
            var y := Run(limits, x, steps);
            && y == Left(x, y.w, e, s, kind)
            && Quiescent(y.w) && y.w.shared == e.h && Performed(y.w) == Performed(x.w) + e.ops
  {
    var e := Effect(x.w.shared, x.uploads, x.nextUpload, [], true);
    var base := Performed(x.w);
    assert base + [] == base;
    var program := Program(kind, s, ok);
    var rest, w, end := RestRuns(limits, x, x.w, e, s, kind, ok, 0, program, base);
    assert program[0..] == program;
    AloneEffects(limits, x, s, kind, ok);
    OneStep(limits, x, Begin(s, kind));
    RunJoin(limits, x, [Begin(s, kind)], rest);
    steps := [Begin(s, kind)] + rest;
  }

  /** In particular a close: a registered statement ends closed, unregistered, without results and uploads;
      an unknown one is answered "not found" and nothing changes but the log of operations. */
  lemma CloseAlone(limits: Limits, x: Session, s: StatementId, ok: bool) returns (steps: seq<Step>)
    requires ActorOk(limits, x.w) && Quiescent(x.w) && s !in x.requests
    ensures var h := x.w.shared;
            var y := Run(limits, x, steps);
            if s in h.statements then
              && s in y.closed && y.closed == x.closed + {s}
              && y.w.shared.statements == h.statements - {s} && y.w.shared.nextId == h.nextId
              && Owned(y.w.shared, s) == {} && y.w.shared.results == h.results - Owned(h, s)
              && NoUpload(y.uploads, s) && y.uploads == (map u | u in x.uploads && x.uploads[u] != s :: x.uploads[u])
              && y.requests == x.requests
            else
              y == x.(w := y.w) && y.w.shared == h
  {
    steps := RequestAlone(limits, x, s, Close, ok);
    assert Owned(Cleaned(x.w.shared, s), s) == {};
  }

  /** An EXECUTE: stopping at the first error, it replaces the statement's results by one new result. */
  lemma ExecuteReplacesResult(limits: Limits, x: Session, s: StatementId, ok: bool) returns (steps: seq<Step>)
    requires ActorOk(limits, x.w) && Quiescent(x.w) && s !in x.requests
    ensures AllMine(steps, s, Kind.Execute, ok) && steps != [] && steps[0] == Begin(s, Kind.Execute)
    ensures var y := Run(limits, x, steps);
            y.w.shared == ExecuteEffect(limits, x.w.shared, s, ok) && Quiescent(y.w) && y == x.(w := y.w)
  {
    steps := RequestAlone(limits, x, s, Kind.Execute, ok);
  }

  // ---- Giving up ----

  /** A request gives up, and only it ends, exactly if its call was refused, its reply was an error, or it timed out. */
  lemma ResumeExact(limits: Limits, x: Session, s: StatementId)
    requires s in x.requests && x.requests[s].wait.Some? && x.requests[s].wait.value < |x.w.callers|
    ensures var wait := x.w.callers[x.requests[s].wait.value].wait;
            Next(limits, x, Resume(s)) ==
            if wait.TimedOut? || (wait.Answered? && !Good(wait.result)) then x.(requests := x.requests - {s})
            else if wait.Answered? then x.(requests := x.requests[s := Request(x.requests[s].kind, x.requests[s].pc + 1, None)])
            else x
  {
  }

  lemma FullQueueEndsRequest(limits: Limits, x: Session, s: StatementId, ok: bool, op: Op)
    requires s in x.requests && x.requests[s].wait.None? && NextAct(x.requests[s], s, ok) == Some(OnWorker(op))
    requires |x.w.queue| >= 32
    ensures var y := Next(limits, x, Submit(s, ok));
            && y.requests == x.requests - {s} && y.uploads == x.uploads && y.closed == x.closed
            && y.w.shared == x.w.shared && Pending(y.w) == Pending(x.w)
  {
    PendingMoves(Applier(limits), x.w, Call(op));
  }

  /** An error met between two steps ends the request and nothing else; a request that has taken all its steps only returns. */
  lemma FailExact(limits: Limits, x: Session, s: StatementId)
    requires s in x.requests && x.requests[s].wait.None?
    ensures Next(limits, x, Fail(s)) ==
            if x.requests[s].pc < |Program(x.requests[s].kind, s, true)| then x.(requests := x.requests - {s}) else x
  {
  }

  /** Cancelling an upload takes away that upload and nothing else. */
  lemma CancelExact(limits: Limits, x: Session, u: UploadId)
    ensures var y := Next(limits, x, CancelUpload(u));
            && y == x.(uploads := y.uploads) && u !in y.uploads
            && forall v | v != u :: (v in y.uploads <==> v in x.uploads) && (v in x.uploads ==> y.uploads[v] == x.uploads[v])
  {
  }
}
