/**
  The per-upload actor: it stages parameter batches in a file, acknowledges each
  after it was written, and hands back a reader at the end. `UploadActor.Handle`
  is the body of the command loop; `Reference` is the budgeted list it refines.
*/
module BindUpload {
  import opened Prelude

  /** What the Arrow stream writer did to the file: it may fail after some bytes. */
  datatype Write = Written(bytes: nat) | Torn(bytes: nat, reason: string)

  /** `reopen` is an error met while rewinding the file and opening a reader on it. */
  datatype Command = Push(batch: Batch, write: Write) | Finish(close: Write, reopen: Option<AdbcError>) | Cancel

  datatype Reply = Ack | Reader(batches: seq<Batch>) | Rejected(error: AdbcError) | Stopped

  /** Creating the file and writing the schema: bytes of the header, or the error that fails all. */
  datatype Startup = Started(header: nat) | Failed(error: AdbcError)

  function StageError(reason: string): AdbcError {
    AdbcError(InvalidData, "stage bind batch: " + reason)
  }

  function OverLimit(limit: nat, written: nat): AdbcError {
    AdbcError(InvalidData, "bind stream exceeds the byte limit", [limit, written])
  }

  function FinishError(reason: string): AdbcError {
    AdbcError(InvalidData, "finish bind upload: " + reason)
  }

  // ---- The budgeted list ----

  /** Batches pushed by a command history. */
  function Pushed(history: seq<Command>): seq<Batch> {
    if history == [] then []
    else
      var n := |history| - 1;
      Pushed(history[..n]) + (if history[n].Push? then [history[n].batch] else [])
  }

  /** Bytes those pushes put in the file, header included, without any machine bound. */
  function Staged(header: nat, history: seq<Command>): nat {
    if history == [] then header
    else
      var n := |history| - 1;
      Staged(header, history[..n]) + (if history[n].Push? then history[n].write.bytes else 0)
  }

  /** The first error of a history: the startup error, a torn write, or the push that overshot. */
  function FirstError(startup: Startup, limit: nat, history: seq<Command>): Option<AdbcError> {
    if startup.Failed? then Some(startup.error)
    else if history == [] then None
    else
      var n := |history| - 1;
      var earlier := FirstError(startup, limit, history[..n]);
      if earlier.Some? || !history[n].Push? then earlier
      else if history[n].write.Torn? then Some(StageError(history[n].write.reason))
      else
        var written := Min(Staged(startup.header, history), USIZE_MAX);
        if written > limit then Some(OverLimit(limit, written)) else None
  }

  predicate Over(history: seq<Command>) {
    exists i | 0 <= i < |history| :: !history[i].Push?
  }

  /** The reply to `command` after `history`. */
  function Reference(startup: Startup, limit: nat, history: seq<Command>, command: Command): Reply {
    if Over(history) then Stopped
    else
      match command
      case Push(_, _) =>
        var error := FirstError(startup, limit, history + [command]);
        if error.Some? then Rejected(error.value) else Ack
      case Finish(close, reopen) =>
        var error := FirstError(startup, limit, history);
        if error.Some? then Rejected(error.value)
        else if close.Torn? then Rejected(FinishError(close.reason))
        else if Min(Staged(startup.header, history) + close.bytes, USIZE_MAX) > limit then
          Rejected(OverLimit(limit, Min(Staged(startup.header, history) + close.bytes, USIZE_MAX)))
        else if reopen.Some? then Rejected(reopen.value)
        else Reader(Pushed(history))
      case Cancel => Stopped
  }

  // ---- The actor ----

  class UploadActor {
    const startup: Startup
    const limit: nat
    var disk: seq<Batch>               // every batch whose write went through, wanted or not
    var written: nat                   // CountingFile's saturating byte count
    var terminal: Option<AdbcError>
    var running: bool
    ghost var history: seq<Command>

    ghost predicate Valid()
      reads this
    {
      && running == !Over(history)
      && (startup.Failed? ==> terminal == Some(startup.error))
      && (running ==> terminal == FirstError(startup, limit, history))
      && (running && terminal.None? ==>
            && written == Min(Staged(startup.header, history), USIZE_MAX)
            && disk == Pushed(history))
    }

    constructor (startup: Startup, limit: nat)
      ensures this.startup == startup && this.limit == limit
      ensures Valid() && history == []
    {
      this.startup := startup;
      this.limit := limit;
      disk := [];
      written := if startup.Started? then Min(startup.header, USIZE_MAX) else 0;
      terminal := if startup.Started? then None else Some(startup.error);
      running := true;
      history := [];
    }

    /** One turn of the command loop. */
    method Handle(command: Command) returns (reply: Reply)
      requires Valid()
      modifies this
      ensures Valid() && history == old(history) + [command]
      ensures reply == Reference(startup, limit, old(history), command)
    {
      if running && command.Push? {
        reply := Stage(command.batch, command.write);
        return;
      }
      OverGrows(history, command);
      reply := Stopped;
      if running && command.Finish? {
        reply := Conclude(command.close, command.reopen);
      }
      running := false;
      history := history + [command];
    }

    /** A push: refused with the error met before, or written and then checked against the limit. */
    method Stage(batch: Batch, write: Write) returns (reply: Reply)
      requires Valid() && running
      modifies this
      ensures Valid() && history == old(history) + [Push(batch, write)]
      ensures reply == Reference(startup, limit, old(history), Push(batch, write))
    {
      ghost var before := history;
      history := history + [Push(batch, write)];
      assert history[..|before|] == before;
      OverGrows(before, Push(batch, write));
      reply := Ack;
      if terminal.Some? {
        reply := Rejected(terminal.value);
      } else {
        written := SaturatingAdd(written, write.bytes);
        if write.Torn? {
          reply := Rejected(StageError(write.reason));
        } else {
          disk := disk + [batch];
          if written > limit {
            reply := Rejected(OverLimit(limit, written));
          }
        }
      }
      if reply.Rejected? {
        terminal := Some(reply.error);
      }
    }

    /** `finish_reader`, unless a push has failed. */
    method Conclude(close: Write, reopen: Option<AdbcError>) returns (reply: Reply)
      requires Valid() && running
      modifies this`written
      ensures reply == Reference(startup, limit, history, Finish(close, reopen))
    {
      if terminal.Some? {
        return Rejected(terminal.value);
      }
      if close.Torn? {
        return Rejected(FinishError(close.reason));
      }
      written := SaturatingAdd(written, close.bytes);
      if written > limit {
        return Rejected(OverLimit(limit, written));
      }
      if reopen.Some? {
        return Rejected(reopen.value);
      }
      return Reader(disk);
    }
  }

  lemma OverGrows(history: seq<Command>, command: Command)
    ensures Over(history + [command]) <==> Over(history) || !command.Push?
  {
    var longer := history + [command];
    if Over(history) {
      var i :| 0 <= i < |history| && !history[i].Push?;
      assert !longer[i].Push?;
    }
    if !command.Push? {
      assert !longer[|history|].Push?;
    }
  }

  /** `reply` is the reference reply to command `i`. */
  ghost predicate AnsweredAt(startup: Startup, limit: nat, commands: seq<Command>, i: nat, reply: Reply)
    requires i < |commands|
  {
    reply == Reference(startup, limit, commands[..i], commands[i])
  }

  /** `run`: the whole command loop. Every reply is the reference reply for its prefix. */
  method Run(startup: Startup, limit: nat, commands: seq<Command>) returns (replies: seq<Reply>)
    ensures |replies| == |commands|
    ensures forall i: nat | i < |commands| :: AnsweredAt(startup, limit, commands, i, replies[i])
  {
    var actor := new UploadActor(startup, limit);
    replies := [];
    for i := 0 to |commands|
      invariant |replies| == i
      invariant actor.Valid() && fresh(actor)
      invariant actor.startup == startup && actor.limit == limit
      invariant actor.history == commands[..i]
      invariant forall k: nat | k < i :: AnsweredAt(startup, limit, commands, k, replies[k])
    {
      var reply := actor.Handle(commands[i]);
      assert AnsweredAt(startup, limit, commands, i, reply);
      replies := replies + [reply];
      assert commands[..i + 1] == commands[..i] + [commands[i]];
    }
  }

  // ---- What the reference promises ----

  lemma {:induction false} ErrorIsSticky(startup: Startup, limit: nat, history: seq<Command>, n: nat)
    requires n <= |history|
    requires FirstError(startup, limit, history[..n]).Some?
    ensures FirstError(startup, limit, history) == FirstError(startup, limit, history[..n])
  {
    if n == |history| {
      assert history[..n] == history;
    } else {
      var m := |history| - 1;
      assert history[..m][..n] == history[..n];
      ErrorIsSticky(startup, limit, history[..m], n);
    }
  }

  /** After one refused push every later push and the finish are refused with that same error. */
  lemma RefusalIsFinal(startup: Startup, limit: nat, commands: seq<Command>, i: nat, j: nat)
    requires i < j < |commands|
    requires commands[i].Push? && Reference(startup, limit, commands[..i], commands[i]).Rejected?
    ensures var refusal := Reference(startup, limit, commands[..i], commands[i]);
            var later := Reference(startup, limit, commands[..j], commands[j]);
            later == if Over(commands[..j]) || commands[j].Cancel? then Stopped else refusal
  {
    assert commands[..j][..i + 1] == commands[..i] + [commands[i]];
    ErrorIsSticky(startup, limit, commands[..j], i + 1);
    var longer := commands[..j] + [commands[j]];
    assert longer[..i + 1] == commands[..i] + [commands[i]];
    ErrorIsSticky(startup, limit, longer, i + 1);
  }

  /** Command `i` was a push, written whole, and its batch is the `i`-th that was pushed. */
  ghost predicate WholePush(history: seq<Command>, i: nat)
    requires i < |history|
  {
    && history[i].Push? && history[i].write.Written?
    && i < |Pushed(history)| && Pushed(history)[i] == history[i].batch
  }

  lemma CleanLast(startup: Startup, limit: nat, history: seq<Command>)
    requires history != [] && !Over(history) && FirstError(startup, limit, history).None?
    ensures var n := |history| - 1;
            && !Over(history[..n]) && FirstError(startup, limit, history[..n]).None?
            && startup.Started? && history[n].Push? && history[n].write.Written?
            && Min(Staged(startup.header, history), USIZE_MAX) <= limit
  {
    var n := |history| - 1;
    assert history == history[..n] + [history[n]];
    OverGrows(history[..n], history[n]);
  }

  /** With no error so far, every command was a whole write and the bytes fit. */
  lemma {:induction false} CleanHistory(startup: Startup, limit: nat, history: seq<Command>)
    requires !Over(history)
    requires FirstError(startup, limit, history).None?
    ensures startup.Started?
    ensures |Pushed(history)| == |history|
    ensures forall i: nat | i < |history| :: WholePush(history, i)
    ensures history != [] ==> Min(Staged(startup.header, history), USIZE_MAX) <= limit
  {
    if history != [] {
      var n := |history| - 1;
      CleanLast(startup, limit, history);
      CleanHistory(startup, limit, history[..n]);
      forall i: nat | i < |history|
        ensures WholePush(history, i)
      {
        if i < n {
          assert WholePush(history[..n], i);
        }
      }
    }
  }

  /** With no error so far, every push was acknowledged. */
  lemma CleanPushAcked(startup: Startup, limit: nat, history: seq<Command>, i: nat)
    requires i < |history| && !Over(history)
    requires FirstError(startup, limit, history).None?
    ensures Reference(startup, limit, history[..i], history[i]) == Ack
  {
    CleanHistory(startup, limit, history);
    assert WholePush(history, i);
    assert history[..i + 1] == history[..i] + [history[i]];
    if FirstError(startup, limit, history[..i + 1]).Some? {
      ErrorIsSticky(startup, limit, history, i + 1);
    }
  }

  /** A reader holds exactly the acknowledged batches in order, and all bytes with the terminator fit:
      a batch that overshot is on disk but in no reader. */
  lemma ReaderIsExact(startup: Startup, limit: nat, commands: seq<Command>, i: nat)
    requires i < |commands|
    requires Reference(startup, limit, commands[..i], commands[i]).Reader?
    ensures commands[i].Finish? && startup.Started? && commands[i].close.Written? && commands[i].reopen.None?
    ensures var batches := Reference(startup, limit, commands[..i], commands[i]).batches;
            && |batches| == i
            && forall k: nat | k < i ::
                 && commands[k].Push? && commands[k].batch == batches[k]
                 && Reference(startup, limit, commands[..k], commands[k]) == Ack
    ensures Min(Staged(startup.header, commands[..i]) + commands[i].close.bytes, USIZE_MAX) <= limit
    ensures limit < USIZE_MAX ==> Staged(startup.header, commands[..i]) + commands[i].close.bytes <= limit
  {
    CleanHistory(startup, limit, commands[..i]);
    forall k: nat | k < i
      ensures commands[k].Push? && commands[k].batch == Pushed(commands[..i])[k]
      ensures Reference(startup, limit, commands[..k], commands[k]) == Ack
    {
      CleanPushAcked(startup, limit, commands[..i], k);
      assert WholePush(commands[..i], k);
      assert commands[..i][k] == commands[k] && commands[..i][..k] == commands[..k];
    }
  }

  lemma {:induction false} StagedGrows(header: nat, history: seq<Command>, n: nat)
    requires n <= |history|
    ensures Staged(header, history[..n]) <= Staged(header, history)
  {
    if n == |history| {
      assert history[..n] == history;
    } else {
      var m := |history| - 1;
      assert history[..m][..n] == history[..n];
      StagedGrows(header, history[..m], n);
    }
  }

  /** And conversely: whole writes that fit the limit are all acknowledged and come back. */
  lemma {:induction false} FittingUploadSucceeds(startup: Startup, limit: nat, history: seq<Command>, close: Write)
    requires startup.Started?
    requires forall i: nat | i < |history| :: history[i].Push? && history[i].write.Written?
    requires close.Written? && Staged(startup.header, history) + close.bytes <= limit
    ensures FirstError(startup, limit, history).None?
    ensures Reference(startup, limit, history, Finish(close, None)) == Reader(Pushed(history))
  {
    if history != [] {
      var n := |history| - 1;
      StagedGrows(startup.header, history, n);
      forall i: nat | i < n ensures history[..n][i].Push? && history[..n][i].write.Written? {
        assert history[..n][i] == history[i];
      }
      FittingUploadSucceeds(startup, limit, history[..n], close);
    }
  }

  ghost predicate AllAcked(startup: Startup, limit: nat, history: seq<Command>) {
    forall i: nat | i < |history| :: AnsweredAt(startup, limit, history, i, Ack)
  }

  /** Behind acknowledged pushes only: what a push meets, and which error it is. */
  lemma PushReplyExact(startup: Startup, limit: nat, history: seq<Command>, batch: Batch, write: Write)
    requires startup.Started? && !Over(history) && AllAcked(startup, limit, history)
    ensures var written := Min(Staged(startup.header, history) + write.bytes, USIZE_MAX);
            Reference(startup, limit, history, Push(batch, write)) ==
            if write.Torn? then Rejected(StageError(write.reason))
            else if written > limit then Rejected(OverLimit(limit, written))
            else Ack
  {
    AckedIsClean(startup, limit, history);
    FirstErrorNext(startup, limit, history, batch, write);
  }

  /** And what the finish meets. */
  lemma FinishReplyExact(startup: Startup, limit: nat, history: seq<Command>, close: Write, reopen: Option<AdbcError>)
    requires startup.Started? && !Over(history) && AllAcked(startup, limit, history)
    ensures var written := Min(Staged(startup.header, history) + close.bytes, USIZE_MAX);
            Reference(startup, limit, history, Finish(close, reopen)) ==
            if close.Torn? then Rejected(FinishError(close.reason))
            else if written > limit then Rejected(OverLimit(limit, written))
            else if reopen.Some? then Rejected(reopen.value)
            else Reader(Pushed(history))
  {
    AckedIsClean(startup, limit, history);
  }

  lemma AckedIsClean(startup: Startup, limit: nat, history: seq<Command>)
    requires startup.Started? && AllAcked(startup, limit, history)
    ensures FirstError(startup, limit, history).None?
  {
    if history != [] {
      var n := |history| - 1;
      assert history[..n] + [history[n]] == history;
      assert AnsweredAt(startup, limit, history, n, Ack);
    }
  }

  lemma FirstErrorNext(startup: Startup, limit: nat, history: seq<Command>, batch: Batch, write: Write)
    requires startup.Started? && FirstError(startup, limit, history).None?
    ensures var written := Min(Staged(startup.header, history) + write.bytes, USIZE_MAX);
            FirstError(startup, limit, history + [Push(batch, write)]) ==
            if write.Torn? then Some(StageError(write.reason))
            else if written > limit then Some(OverLimit(limit, written))
            else None
  {
    assert (history + [Push(batch, write)])[..|history|] == history;
  }

  /** An upload that could not be started answers every push and the finish with that error. */
  lemma FailedStartup(startup: Startup, limit: nat, history: seq<Command>, command: Command)
    requires startup.Failed? && !Over(history) && !command.Cancel?
    ensures Reference(startup, limit, history, command) == Rejected(startup.error)
  {
  }
}
