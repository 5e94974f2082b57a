/**
  The per-session worker: a bounded FIFO of jobs, one thread that runs them, and
  callers that wait for a reply with a deadline and abandon the job when it
  passes. Generic in the state, the operations and what an operation does.
*/
module SessionWorker {
  import opened Prelude

  const QUEUE_CAPACITY: nat := 32

  datatype Job<O> = Job(id: nat, op: O)

  /** The worker between two looks at its channel. */
  datatype Hand<O> = Idle | Fetched(job: Job<O>) | Started(job: Job<O>)

  /** `Expiring`: the deadline passed, the abandoned flag is not stored yet. */
  datatype Wait<R> = Waiting | Expiring | Answered(result: R) | TimedOut | Refused

  datatype Caller<O, R> = Caller(op: O, wait: Wait<R>)

  /** What became of a dequeued job; `before` is the state it ran on. */
  datatype Outcome<S, O, R> = Ran(job: Job<O>, before: S, result: R) | Skipped(job: Job<O>)

  /** `accepted` and `outcomes` are history; caller `i` is the i-th call, and `i` is its job's id. */
  datatype Worker<S, O, R> = Worker(
    shared: S,
    queue: seq<Job<O>>,
    hand: Hand<O>,
    abandoned: set<nat>,
    replies: map<nat, R>,
    callers: seq<Caller<O, R>>,
    accepted: seq<Job<O>>,
    outcomes: seq<Outcome<S, O, R>>)

  function Fresh<S, O, R>(init: S): Worker<S, O, R> {
    Worker(init, [], Idle, {}, map[], [], [], [])
  }

  datatype Step<O> =
    | Call(op: O)
    | Fetch
    | Check
    | Execute
    | Receive(id: nat)
    | Expire(id: nat)
    | Abandon(id: nat)

  function SetWait<S, O, R>(w: Worker<S, O, R>, id: nat, wait: Wait<R>): Worker<S, O, R>
    requires id < |w.callers|
  {
    w.(callers := w.callers[id := w.callers[id].(wait := wait)])
  }

  /** One action. An action that is not enabled changes nothing, so every list of actions is a run. */
  function Next<S, O, R>(apply: (S, O) -> (S, R), w: Worker<S, O, R>, step: Step<O>): Worker<S, O, R> {
    match step
    case Call(op) =>
      var job := Job(|w.callers|, op);
      if |w.queue| < QUEUE_CAPACITY then
        w.(queue := w.queue + [job], accepted := w.accepted + [job], callers := w.callers + [Caller(op, Waiting)])
      else
        w.(callers := w.callers + [Caller(op, Refused)])
    case Fetch =>
      if !w.hand.Idle? || w.queue == [] then w
      else w.(hand := Fetched(w.queue[0]), queue := w.queue[1..])
    case Check =>
      if !w.hand.Fetched? then w
      else if w.hand.job.id in w.abandoned then
        w.(hand := Idle, outcomes := w.outcomes + [Skipped(w.hand.job)])
      else w.(hand := Started(w.hand.job))
    case Execute =>
      if !w.hand.Started? then w
      else
        var job := w.hand.job;
        var (after, result) := apply(w.shared, job.op);
        w.(shared := after, hand := Idle, replies := w.replies[job.id := result],
           outcomes := w.outcomes + [Ran(job, w.shared, result)])
    case Receive(id) =>
      if id < |w.callers| && w.callers[id].wait.Waiting? && id in w.replies
      then SetWait(w, id, Answered(w.replies[id])) else w
    case Expire(id) =>
      if id < |w.callers| && w.callers[id].wait.Waiting? && id !in w.replies
      then SetWait(w, id, Expiring) else w
    case Abandon(id) =>
      if id < |w.callers| && w.callers[id].wait.Expiring?
      then SetWait(w, id, TimedOut).(abandoned := w.abandoned + {id}) else w
  }

  function Run<S, O, R>(apply: (S, O) -> (S, R), w: Worker<S, O, R>, steps: seq<Step<O>>): Worker<S, O, R> {
    if steps == [] then w
    else Next(apply, Run(apply, w, steps[..|steps| - 1]), steps[|steps| - 1])
  }

  lemma RunNext<S, O, R>(apply: (S, O) -> (S, R), w: Worker<S, O, R>, steps: seq<Step<O>>, step: Step<O>)
    ensures Run(apply, w, steps + [step]) == Next(apply, Run(apply, w, steps), step)
  {
    assert (steps + [step])[..|steps|] == steps;
  }

  /** A run goes on from where it stood, one step at a time. */
  lemma RunStep<S, O, R>(apply: (S, O) -> (S, R), w: Worker<S, O, R>, a: seq<Step<O>>, b: seq<Step<O>>, step: Step<O>)
    requires Run(apply, w, a + b) == Run(apply, Run(apply, w, a), b)
    ensures Run(apply, w, a + (b + [step])) == Run(apply, Run(apply, w, a), b + [step])
  {
    var reached := Run(apply, w, a);
    RunNext(apply, w, a + b, step);
    RunNext(apply, reached, b, step);
    Associative(a, b, [step]);
  }

  lemma {:induction false} RunJoin<S, O, R>(apply: (S, O) -> (S, R), w: Worker<S, O, R>, a: seq<Step<O>>, b: seq<Step<O>>)
    ensures Run(apply, w, a + b) == Run(apply, Run(apply, w, a), b)
  {
    if b == [] {
      assert a + b == a;
    } else {
      var n := |b| - 1;
      RunJoin(apply, w, a, b[..n]);
      RunStep(apply, w, a, b[..n], b[n]);
      assert b[..n] + [b[n]] == b;
    }
  }

  // ---- First in, first out ----

  function InHand<O>(hand: Hand<O>): seq<Job<O>> {
    if hand.Idle? then [] else [hand.job]
  }

  /** Accepted jobs that have neither run nor been skipped, oldest first. */
  function Pending<S, O, R>(w: Worker<S, O, R>): seq<Job<O>> {
    InHand(w.hand) + w.queue
  }

  function JobsOf<S, O, R>(outcomes: seq<Outcome<S, O, R>>): (jobs: seq<Job<O>>)
    ensures |jobs| == |outcomes| && forall i | 0 <= i < |outcomes| :: jobs[i] == outcomes[i].job
  {
    seq(|outcomes|, i requires 0 <= i < |outcomes| => outcomes[i].job)
  }

  lemma JobsOfNext<S, O, R>(outcomes: seq<Outcome<S, O, R>>, last: Outcome<S, O, R>)
    ensures JobsOf(outcomes + [last]) == JobsOf(outcomes) + [last.job]
  {
  }

  lemma PendingIncreases<S, O, R>(w: Worker<S, O, R>)
    requires Fifo(w)
    ensures Increasing(Pending(w))
  {
    var base := |w.outcomes|;
    forall i, j | 0 <= i < j < |Pending(w)|
      ensures Pending(w)[i].id < Pending(w)[j].id
    {
      assert w.accepted[base + i] == Pending(w)[i] && w.accepted[base + j] == Pending(w)[j];
    }
  }

  /** How each action moves the pending jobs. */
  lemma PendingMoves<S, O, R>(apply: (S, O) -> (S, R), w: Worker<S, O, R>, step: Step<O>)
    ensures var p := Pending(w);
            var p' := Pending(Next(apply, w, step));
            match step
            case Call(op) => p' == if |w.queue| < 32 then p + [Job(|w.callers|, op)] else p
            case Check => p' == if w.hand.Fetched? && w.hand.job.id in w.abandoned then p[1..] else p
            case Execute => p' == if w.hand.Started? then p[1..] else p
            case _ => p' == p
  {
  }

  ghost predicate Increasing<O>(jobs: seq<Job<O>>) {
    forall i, j | 0 <= i < j < |jobs| :: jobs[i].id < jobs[j].id
  }

  /** A job carries its caller's operation, and its caller was not turned away. */
  ghost predicate Genuine<S, O, R>(w: Worker<S, O, R>, job: Job<O>) {
    job.id < |w.callers| && w.callers[job.id].op == job.op && !w.callers[job.id].wait.Refused?
  }

  ghost predicate Fifo<S, O, R>(w: Worker<S, O, R>) {
    && w.accepted == JobsOf(w.outcomes) + Pending(w)
    && Increasing(w.accepted)
    && (forall i | 0 <= i < |w.accepted| :: Genuine(w, w.accepted[i]))
    && |w.queue| <= QUEUE_CAPACITY
  }

  /** Callers only move on; they never change their operation and are never turned away later. */
  ghost predicate CallersMove<S, O, R>(w: Worker<S, O, R>, after: Worker<S, O, R>) {
    && |w.callers| <= |after.callers|
    && forall i: nat | i < |w.callers| ::
         after.callers[i].op == w.callers[i].op && (after.callers[i].wait.Refused? <==> w.callers[i].wait.Refused?)
  }

  /** The oldest pending job leaves with an outcome. */
  lemma FifoResolve<S, O, R>(w: Worker<S, O, R>, after: Worker<S, O, R>, outcome: Outcome<S, O, R>)
    requires Fifo(w) && CallersMove(w, after)
    requires Pending(w) != [] && outcome.job == Pending(w)[0] && Pending(after) == Pending(w)[1..]
    requires after.outcomes == w.outcomes + [outcome]
    requires after.accepted == w.accepted && after.queue == w.queue
    ensures Fifo(after)
  {
    JobsOfNext(w.outcomes, outcome);
    assert Pending(w) == [outcome.job] + Pending(after);
    Associative(JobsOf(w.outcomes), [outcome.job], Pending(after));
    forall i | 0 <= i < |w.accepted| ensures Genuine(after, w.accepted[i]) { assert Genuine(w, w.accepted[i]); }
  }

  lemma FifoFrame<S, O, R>(w: Worker<S, O, R>, after: Worker<S, O, R>)
    requires Fifo(w) && CallersMove(w, after)
    requires Pending(after) == Pending(w) && after.outcomes == w.outcomes && after.accepted == w.accepted
    requires |after.queue| <= |w.queue|
    ensures Fifo(after)
  {
    forall i | 0 <= i < |w.accepted| ensures Genuine(after, w.accepted[i]) { assert Genuine(w, w.accepted[i]); }
  }

  lemma FifoCall<S, O, R>(w: Worker<S, O, R>, op: O)
    requires Fifo(w) && |w.queue| < QUEUE_CAPACITY
    ensures var job := Job(|w.callers|, op);
            Fifo(w.(queue := w.queue + [job], accepted := w.accepted + [job], callers := w.callers + [Caller(op, Waiting)]))
  {
    var job := Job(|w.callers|, op);
    var after := w.(queue := w.queue + [job], accepted := w.accepted + [job], callers := w.callers + [Caller(op, Waiting)]);
    assert Pending(after) == Pending(w) + [job];
    forall i | 0 <= i < |after.accepted|
      ensures Genuine(after, after.accepted[i])
    {
      assert i < |w.accepted| ==> Genuine(w, w.accepted[i]);
    }
    forall i, j | 0 <= i < j < |after.accepted|
      ensures after.accepted[i].id < after.accepted[j].id
    {
      assert Genuine(w, w.accepted[i]);
    }
  }

  lemma FifoCalled<S, O, R>(apply: (S, O) -> (S, R), w: Worker<S, O, R>, op: O)
    requires Fifo(w)
    ensures Fifo(Next(apply, w, Call(op)))
  {
    if |w.queue| < QUEUE_CAPACITY {
      FifoCall(w, op);
    } else {
      PendingMoves(apply, w, Call(op));
      FifoFrame(w, Next(apply, w, Call(op)));
    }
  }

  lemma FifoChecked<S, O, R>(apply: (S, O) -> (S, R), w: Worker<S, O, R>)
    requires Fifo(w)
    ensures Fifo(Next(apply, w, Check))
  {
    PendingMoves(apply, w, Check);
    if w.hand.Fetched? && w.hand.job.id in w.abandoned {
      FifoResolve(w, Next(apply, w, Check), Skipped(w.hand.job));
    } else {
      FifoFrame(w, Next(apply, w, Check));
    }
  }

  lemma FifoExecuted<S, O, R>(apply: (S, O) -> (S, R), w: Worker<S, O, R>)
    requires Fifo(w) && w.hand.Started?
    ensures Fifo(Next(apply, w, Execute))
  {
    PendingMoves(apply, w, Execute);
    FifoResolve(w, Next(apply, w, Execute), Ran(w.hand.job, w.shared, apply(w.shared, w.hand.job.op).1));
  }

  /** Fetching, and whatever callers do while they wait. */
  lemma FifoWaited<S, O, R>(apply: (S, O) -> (S, R), w: Worker<S, O, R>, step: Step<O>)
    requires Fifo(w) && !step.Call? && !step.Check? && !step.Execute?
    ensures Fifo(Next(apply, w, step))
  {
    PendingMoves(apply, w, step);
    FifoFrame(w, Next(apply, w, step));
  }

  lemma FifoKept<S, O, R>(apply: (S, O) -> (S, R), w: Worker<S, O, R>, step: Step<O>)
    requires Fifo(w)
    ensures Fifo(Next(apply, w, step))
  {
    if step.Call? {
      FifoCalled(apply, w, step.op);
    } else if step.Check? {
      FifoChecked(apply, w);
    } else if !step.Execute? {
      FifoWaited(apply, w, step);
    } else if w.hand.Started? {
      FifoExecuted(apply, w);
    }
  }

  // ---- Exactly the sequential behaviour ----

  /** The state left by running the jobs of `outcomes` one after the other. */
  function Replay<S, O, R>(apply: (S, O) -> (S, R), init: S, outcomes: seq<Outcome<S, O, R>>): S {
    if outcomes == [] then init
    else
      var n := |outcomes| - 1;
      var before := Replay(apply, init, outcomes[..n]);
      if outcomes[n].Ran? then apply(before, outcomes[n].job.op).0 else before
  }

  /** Job `k` ran on the state left by all earlier ones and its result is what its operation returns there. */
  ghost predicate Sequential<S, O, R>(apply: (S, O) -> (S, R), init: S, outcomes: seq<Outcome<S, O, R>>, k: nat)
    requires k < |outcomes|
  {
    outcomes[k].Ran? ==>
      && outcomes[k].before == Replay(apply, init, outcomes[..k])
      && outcomes[k].result == apply(outcomes[k].before, outcomes[k].job.op).1
  }

  ghost predicate Explained<S, O, R>(apply: (S, O) -> (S, R), init: S, w: Worker<S, O, R>) {
    && w.shared == Replay(apply, init, w.outcomes)
    && forall k: nat | k < |w.outcomes| :: Sequential(apply, init, w.outcomes, k)
  }

  lemma ExplainedKept<S, O, R>(apply: (S, O) -> (S, R), init: S, w: Worker<S, O, R>, step: Step<O>)
    requires Explained(apply, init, w)
    ensures Explained(apply, init, Next(apply, w, step))
  {
    var after := Next(apply, w, step);
    if after.outcomes != w.outcomes {
      var n := |w.outcomes|;
      assert after.outcomes[..n] == w.outcomes;
      forall k: nat | k < |after.outcomes|
        ensures Sequential(apply, init, after.outcomes, k)
      {
        if k < n {
          assert Sequential(apply, init, w.outcomes, k);
          assert after.outcomes[..k] == w.outcomes[..k];
        }
      }
    }
  }

  ghost predicate RanWith<S, O, R>(w: Worker<S, O, R>, id: nat, result: R) {
    exists k: nat :: k < |w.outcomes| && w.outcomes[k].Ran? && w.outcomes[k].job.id == id && w.outcomes[k].result == result
  }

  /** Replies come from executed jobs, answers from replies; only timed-out callers abandon. */
  ghost predicate RepliesOk<S, O, R>(w: Worker<S, O, R>) {
    && (forall id | id in w.replies :: id < |w.callers| && RanWith(w, id, w.replies[id]))
    && (forall id: nat | id < |w.callers| && w.callers[id].wait.Answered? ::
          id in w.replies && w.replies[id] == w.callers[id].wait.result)
    && AbandonedOk(w)
  }

  /** The abandoned flags are exactly those of the callers that timed out. */
  ghost predicate AbandonedOk<S, O, R>(w: Worker<S, O, R>) {
    && (forall id | id in w.abandoned :: id < |w.callers| && w.callers[id].wait.TimedOut?)
    && (forall id: nat | id < |w.callers| && w.callers[id].wait.TimedOut? :: id in w.abandoned)
  }

  lemma RanGrows<S, O, R>(w: Worker<S, O, R>, after: Worker<S, O, R>, id: nat, result: R)
    requires RanWith(w, id, result)
    requires w.outcomes <= after.outcomes
    ensures RanWith(after, id, result)
  {
    var k: nat :| k < |w.outcomes| && w.outcomes[k].Ran? && w.outcomes[k].job.id == id && w.outcomes[k].result == result;
    assert after.outcomes[k] == w.outcomes[k];
  }

  /** No accepted job is in two places. */
  lemma PendingNotReplied<S, O, R>(w: Worker<S, O, R>, i: nat)
    requires Fifo(w) && RepliesOk(w) && i < |Pending(w)|
    ensures Genuine(w, Pending(w)[i]) && Pending(w)[i].id !in w.replies
  {
    var id := Pending(w)[i].id;
    var base := |w.outcomes|;
    assert w.accepted[base + i] == Pending(w)[i];
    assert Genuine(w, w.accepted[base + i]);
    forall k: nat | k < base
      ensures w.outcomes[k].job.id != id
    {
      assert w.accepted[k] == w.outcomes[k].job;
    }
  }

  lemma ReplyAdded<S, O, R>(apply: (S, O) -> (S, R), w: Worker<S, O, R>)
    requires Fifo(w) && RepliesOk(w) && w.hand.Started?
    ensures RepliesOk(Next(apply, w, Execute))
  {
    var after := Next(apply, w, Execute);
    assert Pending(w)[0] == w.hand.job;
    PendingNotReplied(w, 0);
    forall id | id in after.replies
      ensures id < |after.callers| && RanWith(after, id, after.replies[id])
    {
      if id == w.hand.job.id {
        assert after.outcomes[|w.outcomes|] == Ran(w.hand.job, w.shared, after.replies[id]);
      } else {
        RanGrows(w, after, id, w.replies[id]);
      }
    }
  }

  /** Actions that leave replies and outcomes alone. */
  lemma RepliesFrame<S, O, R>(w: Worker<S, O, R>, after: Worker<S, O, R>)
    requires RepliesOk(w)
    requires after.replies == w.replies && w.outcomes <= after.outcomes && |w.callers| <= |after.callers|
    requires forall id: nat | id < |after.callers| && after.callers[id].wait.Answered? ::
               id in w.replies && w.replies[id] == after.callers[id].wait.result
    requires AbandonedOk(after)
    ensures RepliesOk(after)
  {
    forall id | id in w.replies ensures RanWith(after, id, w.replies[id]) { RanGrows(w, after, id, w.replies[id]); }
  }

  lemma RepliesKept<S, O, R>(apply: (S, O) -> (S, R), w: Worker<S, O, R>, step: Step<O>)
    requires Fifo(w) && RepliesOk(w)
    ensures RepliesOk(Next(apply, w, step))
  {
    if step.Execute? && w.hand.Started? {
      ReplyAdded(apply, w);
    } else {
      RepliesFrame(w, Next(apply, w, step));
    }
  }

  ghost predicate Inv<S, O, R>(apply: (S, O) -> (S, R), init: S, w: Worker<S, O, R>) {
    Fifo(w) && Explained(apply, init, w) && RepliesOk(w)
  }

  lemma NextKeeps<S, O, R>(apply: (S, O) -> (S, R), init: S, w: Worker<S, O, R>, step: Step<O>)
    requires Inv(apply, init, w)
    ensures Inv(apply, init, Next(apply, w, step))
  {
    FifoKept(apply, w, step);
    ExplainedKept(apply, init, w, step);
    RepliesKept(apply, w, step);
  }

  lemma {:induction false} RunKeeps<S, O, R>(apply: (S, O) -> (S, R), init: S, w: Worker<S, O, R>, steps: seq<Step<O>>)
    requires Inv(apply, init, w)
    ensures Inv(apply, init, Run(apply, w, steps))
  {
    if steps != [] {
      RunKeeps(apply, init, w, steps[..|steps| - 1]);
      NextKeeps(apply, init, Run(apply, w, steps[..|steps| - 1]), steps[|steps| - 1]);
    }
  }

  /** The execution of caller `id`, seen from outside: its own operation, once, on the sequential state. */
  ghost predicate AnsweredBy<S, O, R>(apply: (S, O) -> (S, R), init: S, w: Worker<S, O, R>, id: nat, k: nat)
    requires id < |w.callers| && w.callers[id].wait.Answered?
  {
    && k < |w.outcomes|
    && var before := Replay(apply, init, w.outcomes[..k]);
       w.outcomes[k] == Ran(Job(id, w.callers[id].op), before, w.callers[id].wait.result)
       && w.callers[id].wait.result == apply(before, w.callers[id].op).1
  }

  /**
    Linearizability under timeouts, for every interleaving: dequeued jobs are a prefix of the accepted
    ones in acceptance order, and acceptance order is call order, so no job runs twice; the state is
    the sequential replay of the executed jobs; every answered caller got the result of its own
    operation on the state left by all earlier ones; a refused caller's job was never accepted.
  */
  lemma Linearizable<S, O, R>(apply: (S, O) -> (S, R), init: S, steps: seq<Step<O>>)
    ensures var w := Run(apply, Fresh<S, O, R>(init), steps);
            && JobsOf(w.outcomes) <= w.accepted
            && Increasing(w.accepted)
            && w.shared == Replay(apply, init, w.outcomes)
            && (forall id: nat | id < |w.callers| && w.callers[id].wait.Answered? ::
                  exists k: nat :: AnsweredBy(apply, init, w, id, k))
            && (forall i | 0 <= i < |w.accepted| ::
                  w.accepted[i].id < |w.callers| && !w.callers[w.accepted[i].id].wait.Refused?)
            && |w.queue| <= 32
            && (forall id: nat :: id in w.abandoned <==> id < |w.callers| && w.callers[id].wait.TimedOut?)
  {
    RunKeeps(apply, init, Fresh<S, O, R>(init), steps);
    var w := Run(apply, Fresh<S, O, R>(init), steps);
    forall id: nat | id < |w.callers| && w.callers[id].wait.Answered?
      ensures exists k: nat :: AnsweredBy(apply, init, w, id, k)
    {
      var k := AnswerFound(apply, init, w, id);
    }
    forall i | 0 <= i < |w.accepted|
      ensures w.accepted[i].id < |w.callers| && !w.callers[w.accepted[i].id].wait.Refused?
    {
      assert Genuine(w, w.accepted[i]);
    }
  }

  /** The one execution behind an answer: no other dequeued job belongs to that caller. */
  lemma AnswerFound<S, O, R>(apply: (S, O) -> (S, R), init: S, w: Worker<S, O, R>, id: nat) returns (k: nat)
    requires Inv(apply, init, w) && id < |w.callers| && w.callers[id].wait.Answered?
    ensures AnsweredBy(apply, init, w, id, k)
    ensures forall j: nat | j < |w.outcomes| && w.outcomes[j].job.id == id :: j == k
  {
    var result := w.callers[id].wait.result;
    assert RanWith(w, id, result);
    k :| k < |w.outcomes| && w.outcomes[k].Ran? && w.outcomes[k].job.id == id && w.outcomes[k].result == result;
    assert Sequential(apply, init, w.outcomes, k);
    assert w.accepted[k] == w.outcomes[k].job;
    assert Genuine(w, w.accepted[k]);
    forall j: nat | j < |w.outcomes| && w.outcomes[j].job.id == id
      ensures j == k
    {
      assert w.accepted[j] == w.outcomes[j].job;
    }
  }

  // ---- Abandoned jobs ----

  ghost predicate HasRun<S, O, R>(w: Worker<S, O, R>, id: nat) {
    exists k: nat :: k < |w.outcomes| && w.outcomes[k].Ran? && w.outcomes[k].job.id == id
  }

  /** The worker has not reached job `id` yet. */
  ghost predicate NotReached<S, O, R>(w: Worker<S, O, R>, id: nat) {
    !HasRun(w, id) && !(w.hand.Started? && w.hand.job.id == id)
  }

  lemma {:induction false} AbandonedNeverReached<S, O, R>(apply: (S, O) -> (S, R), w: Worker<S, O, R>, steps: seq<Step<O>>, id: nat)
    requires id in w.abandoned && NotReached(w, id)
    ensures var after := Run(apply, w, steps);
            id in after.abandoned && NotReached(after, id)
  {
    if steps != [] {
      var n := |steps| - 1;
      AbandonedNeverReached(apply, w, steps[..n], id);
      AbandonedStepSafe(apply, Run(apply, w, steps[..n]), steps[n], id);
    }
  }

  lemma AbandonedStepSafe<S, O, R>(apply: (S, O) -> (S, R), w: Worker<S, O, R>, step: Step<O>, id: nat)
    requires id in w.abandoned && NotReached(w, id)
    ensures var after := Next(apply, w, step);
            id in after.abandoned && NotReached(after, id)
  {
    var after := Next(apply, w, step);
    forall k: nat | k < |after.outcomes|
      ensures !(after.outcomes[k].Ran? && after.outcomes[k].job.id == id)
    {
      assert k < |w.outcomes| ==> after.outcomes[k] == w.outcomes[k];
    }
  }

  /** In every run: the job of a caller that timed out before the worker reached it never runs, however the run goes on. */
  lemma AbandonedInTimeNeverRuns<S, O, R>(apply: (S, O) -> (S, R), init: S, before: seq<Step<O>>, after: seq<Step<O>>, id: nat)
    requires var w := Run(apply, Fresh<S, O, R>(init), before);
             id < |w.callers| && w.callers[id].wait.TimedOut? && NotReached(w, id)
    ensures var w := Run(apply, Fresh<S, O, R>(init), before);
            NotReached(Run(apply, w, after), id)
  {
    RunKeeps(apply, init, Fresh<S, O, R>(init), before);
    AbandonedNeverReached(apply, Run(apply, Fresh<S, O, R>(init), before), after, id);
  }

  /** The worker is at job `id`, or has run it. */
  ghost predicate Reached<S, O, R>(w: Worker<S, O, R>, id: nat) {
    HasRun(w, id) || (w.hand.Started? && w.hand.job.id == id)
  }

  lemma ReachedStays<S, O, R>(apply: (S, O) -> (S, R), w: Worker<S, O, R>, step: Step<O>, id: nat)
    requires Reached(w, id)
    ensures Reached(Next(apply, w, step), id)
  {
    var after := Next(apply, w, step);
    if HasRun(w, id) {
      var k: nat :| k < |w.outcomes| && w.outcomes[k].Ran? && w.outcomes[k].job.id == id;
      assert after.outcomes[k] == w.outcomes[k];
    } else if step.Execute? {
      assert after.outcomes[|w.outcomes|].Ran? && after.outcomes[|w.outcomes|].job.id == id;
    }
  }

  /** A job that the worker had reached runs to its end, whatever becomes of its caller. */
  lemma {:induction false} ReachedRuns<S, O, R>(apply: (S, O) -> (S, R), w: Worker<S, O, R>, steps: seq<Step<O>>, id: nat)
    requires Reached(w, id)
    ensures Reached(Run(apply, w, steps), id)
  {
    if steps != [] {
      var n := |steps| - 1;
      ReachedRuns(apply, w, steps[..n], id);
      ReachedStays(apply, Run(apply, w, steps[..n]), steps[n], id);
    }
  }

  /** What a call does to its caller: it waits exactly if the queue had room for its job. */
  lemma CallExact<S, O, R>(apply: (S, O) -> (S, R), w: Worker<S, O, R>, op: O)
    ensures var after := Next(apply, w, Call(op));
            && after.callers == w.callers + [Caller(op, if |w.queue| < 32 then Waiting else Refused)]
            && after.shared == w.shared && after.outcomes == w.outcomes && after.abandoned == w.abandoned
  {
  }

  /** A caller whose deadline passes without a reply times out, its flag is stored, and nothing else changes. */
  lemma TimeoutExact<S, O, R>(apply: (S, O) -> (S, R), w: Worker<S, O, R>, id: nat)
    requires id < |w.callers| && w.callers[id].wait.Waiting? && id !in w.replies
    ensures var after := Next(apply, Next(apply, w, Expire(id)), Abandon(id));
            after == w.(callers := w.callers[id := Caller(w.callers[id].op, TimedOut)], abandoned := w.abandoned + {id})
  {
    var expiring := Next(apply, w, Expire(id));
    assert expiring.callers[id := expiring.callers[id].(wait := TimedOut)] == w.callers[id := Caller(w.callers[id].op, TimedOut)];
  }

  /** In every run an idle worker passes over the oldest job if its caller has timed out: it is gone, and the state is as before. */
  lemma OldestAbandonedIsSkipped<S, O, R>(apply: (S, O) -> (S, R), init: S, w: Worker<S, O, R>)
    requires Inv(apply, init, w) && w.hand.Idle? && w.queue != []
    requires w.queue[0].id < |w.callers| && w.callers[w.queue[0].id].wait.TimedOut?
    ensures var after := Next(apply, Next(apply, w, Fetch), Check);
            after == w.(queue := w.queue[1..], outcomes := w.outcomes + [Skipped(w.queue[0])])
  {
  }

  /** A caller that was turned away is nobody's job, in any continuation. */
  lemma {:induction false} RefusedStays<S, O, R>(apply: (S, O) -> (S, R), w: Worker<S, O, R>, steps: seq<Step<O>>, id: nat)
    requires id < |w.callers| && w.callers[id].wait.Refused?
    ensures var after := Run(apply, w, steps);
            id < |after.callers| && after.callers[id].wait.Refused?
  {
    if steps != [] {
      RefusedStays(apply, w, steps[..|steps| - 1], id);
    }
  }

  lemma RefusedNeverRuns<S, O, R>(apply: (S, O) -> (S, R), init: S, w: Worker<S, O, R>, steps: seq<Step<O>>, id: nat)
    requires Inv(apply, init, w) && id < |w.callers| && w.callers[id].wait.Refused?
    ensures !HasRun(Run(apply, w, steps), id)
  {
    var after := Run(apply, w, steps);
    RunKeeps(apply, init, w, steps);
    RefusedStays(apply, w, steps, id);
    forall k: nat | k < |after.outcomes|
      ensures after.outcomes[k].job.id != id
    {
      assert after.accepted[k] == after.outcomes[k].job;
      assert Genuine(after, after.accepted[k]);
    }
  }

  /** An idle worker takes the oldest job, runs it on the current state and answers its waiting caller. */
  lemma OldestJobIsServed<S, O, R>(apply: (S, O) -> (S, R), init: S, w: Worker<S, O, R>)
    requires Inv(apply, init, w) && w.hand.Idle? && w.queue != [] && w.queue[0].id !in w.abandoned
    ensures var job := w.queue[0];
            var after := Next(apply, Next(apply, Next(apply, w, Fetch), Check), Execute);
            && after.queue == w.queue[1..] && after.hand.Idle? && after.callers == w.callers
            && after.shared == apply(w.shared, job.op).0
            && after.outcomes == w.outcomes + [Ran(job, w.shared, apply(w.shared, job.op).1)]
            && job.id < |w.callers| && w.callers[job.id].op == job.op
            && (w.callers[job.id].wait.Waiting? ==>
                  Next(apply, after, Receive(job.id)) == SetWait(after, job.id, Answered(apply(w.shared, job.op).1)))
  {
    assert Pending(w)[0] == w.queue[0];
    PendingNotReplied(w, 0);
  }

  /** A call on a worker with nothing else to do: its operation runs on the current state and is answered. */
  lemma ServedAlone<S, O, R>(apply: (S, O) -> (S, R), init: S, w: Worker<S, O, R>, op: O)
    requires Inv(apply, init, w) && w.hand.Idle? && w.queue == []
    ensures var id := |w.callers|;
            var called := Next(apply, w, Call(op));
            var executed := Next(apply, Next(apply, Next(apply, called, Fetch), Check), Execute);
            var after := Next(apply, executed, Receive(id));
            && called.callers == w.callers + [Caller(op, Waiting)] && called.hand.Idle? && called.queue == [Job(id, op)]
            && after.hand.Idle? && after.queue == []
            && after.shared == apply(w.shared, op).0
            && after.callers == w.callers + [Caller(op, Answered(apply(w.shared, op).1))]
            && after.outcomes == w.outcomes + [Ran(Job(id, op), w.shared, apply(w.shared, op).1)]
  {
    var called := Next(apply, w, Call(op));
    NextKeeps(apply, init, w, Call(op));
    assert called.queue == [Job(|w.callers|, op)];
    OldestJobIsServed(apply, init, called);
  }
}
