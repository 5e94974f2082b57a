/**
  End-to-end result delivery: the client's `RemoteReader`, the transport turn,
  the server's `ResultProducer` and the `ResultEntry` behind it. The network may
  lose a turn, repeat it, or let arbitrary other requests reach the same result.
*/
module RemoteDelivery {
  import opened Prelude
  import opened ResultCursor

  /** One producer turn as the client sees it; the token is the producer's encoded cursor. */
  datatype Turn = Turn(batch: Option<Batch>, token: Option<int>, finished: bool) | Refused(error: AdbcError)

  /** The turn that an answer at cursor `c` becomes. */
  predicate TurnFor(answer: Answer, c: int, turn: Turn) {
    match answer
    case Delivered(batch) => turn == Turn(Some(batch), Some(c + 1), false)
    case Finished => turn == Turn(None, None, true)
    case Faulted(error) => turn == Refused(error)
    case OutOfWindow(_) => turn.Refused?
  }

  /** The server half of a read stream. */
  class ResultProducer {
    const entry: ResultEntry
    var sequence: int

    constructor (entry: ResultEntry, sequence: int)
      ensures this.entry == entry && this.sequence == sequence
    {
      this.entry := entry;
      this.sequence := sequence;
    }

    /** A turn emits one batch and a token, or finishes, never both. */
    method Produce() returns (turn: Turn)
      requires entry.Valid()
      modifies this, entry, entry.reader
      ensures entry.Valid()
      ensures var (w, answer) := Reply(entry.reader.script, old(entry.View()), old(sequence));
              && entry.View() == w && TurnFor(answer, old(sequence), turn)
              && sequence == old(sequence) + (if answer.Delivered? then 1 else 0)
    {
      var answer := entry.Next(sequence);
      match answer {
        case Delivered(batch) =>
          sequence := sequence + 1;
          turn := Turn(Some(batch), Some(sequence), false);
        case Finished =>
          turn := Turn(None, None, true);
        case Faulted(error) =>
          turn := Refused(error);
        case OutOfWindow(_) =>
          turn := Refused(AdbcError(InvalidState, "invalid result sequence"));
      }
    }
  }

  /** What the environment does around one client turn. `noise` reaches the entry first: repeats of
      this turn, delayed repeats of older turns, or anybody else's requests. */
  datatype Exchange = Exchange(noise: seq<int>, lost: Option<AdbcError>)

  ghost predicate Quiet(net: Exchange, c: nat) {
    net.lost.None? && forall i | 0 <= i < |net.noise| :: net.noise[i] <= c
  }

  /** Noise is served like any request. */
  method ServeNoise(entry: ResultEntry, noise: seq<int>)
    requires entry.Valid()
    modifies entry, entry.reader
    ensures entry.Valid()
    ensures entry.View() == Serve(entry.reader.script, old(entry.View()), noise).0
  {
    ghost var w := entry.View();
    var i := 0;
    while i < |noise|
      invariant 0 <= i <= |noise|
      invariant entry.Valid()
      invariant entry.View() == Serve(entry.reader.script, w, noise[..i]).0
    {
      var _ := entry.Next(noise[i]);
      i := i + 1;
      assert noise[..i][..i - 1] == noise[..i - 1];
    }
    assert noise[..i] == noise;
  }

  /** The turn at cursor `c` carries exactly item `c` of the backend's list, or an error. */
  ghost predicate Faithful(script: nat -> Pull, c: int, turn: Turn) {
    turn.Turn? ==>
      && c >= 0 && AllItems(script, c)
      && turn == (match script(c)
                  case Item(batch) => Turn(Some(batch), Some(c + 1), false)
                  case Exhausted => Turn(None, None, true)
                  case Broken(error) => Refused(error))
  }

  /** The window in which the turn at `token` is served, once the noise has been served. */
  lemma AfterNoise(script: nat -> Pull, w: Window, token: int, net: Exchange)
    requires Consistent(script, w)
    ensures var w' := Serve(script, w, net.noise).0;
            Consistent(script, w') && (token >= 0 && Ready(w, token) && Quiet(net, token) ==> Ready(w', token))
  {
    RunRefinesList(script, w, net.noise);
    if token >= 0 && Ready(w, token) && Quiet(net, token) {
      NoSkipAhead(script, w, token, net.noise);
    }
  }

  /** Asked in step, the entry answers with the item itself and moves right behind it. */
  lemma ReadyReply(script: nat -> Pull, w: Window, token: nat)
    requires Consistent(script, w) && Ready(w, token)
    ensures var (w', answer) := Reply(script, w, token);
            answer == ItemAt(script, token) && (answer.Delivered? ==> Ready(w', token + 1))
  {
    assert w.next == token + 1 ==> script(token).Item?;
  }

  lemma TurnIsFaithful(script: nat -> Pull, w: Window, token: int, turn: Turn)
    requires Consistent(script, w) && TurnFor(Reply(script, w, token).1, token, turn)
    ensures Faithful(script, token, turn)
  {
    ReplyExact(script, w, token);
  }

  method ServerTurn(entry: ResultEntry, token: int, net: Exchange) returns (turn: Turn)
    requires entry.Valid()
    modifies entry, entry.reader
    ensures entry.Valid()
    ensures Faithful(entry.reader.script, token, turn)
    ensures net.lost.Some? ==> turn == Refused(net.lost.value)
    ensures token >= 0 && old(Ready(entry.View(), token)) && Quiet(net, token) ==>
              && (turn.Refused? <==> entry.reader.script(token).Broken?)
              && (turn.Refused? ==> turn.error == entry.reader.script(token).error)
              && (turn.Turn? && turn.batch.Some? ==> Ready(entry.View(), token + 1))
  {
    AfterNoise(entry.reader.script, entry.View(), token, net);
    ghost var inStep := token >= 0 && Ready(entry.View(), token) && Quiet(net, token);
    ServeNoise(entry, net.noise);
    if net.lost.Some? {
      return Refused(net.lost.value);
    }
    ghost var w := entry.View();
    var producer := new ResultProducer(entry, token);
    turn := producer.Produce();
    TurnIsFaithful(entry.reader.script, w, token, turn);
    if inStep {
      ReadyReply(entry.reader.script, w, token);
    }
  }

  datatype Yield = Value(batch: Batch) | EndOfStream | Failure(error: AdbcError)

  datatype Mode = Http | ByteStream

  class RemoteReader {
    const entry: ResultEntry
    const mode: Mode
    var pending: seq<Batch>
    var continuation: Option<int>
    var cursor: int              // byte streams: the cursor of the producer on the other end
    var finished: bool
    ghost var yielded: nat       // batches handed to the application so far

    /** The reader is positioned right behind what it yielded, or it is finished. */
    ghost predicate Valid()
      reads this, entry, entry.reader
    {
      && entry.Valid()
      && (!finished ==>
            && AllItems(entry.reader.script, yielded)
            && (mode.ByteStream? ==> pending == [] && cursor == yielded)
            && (mode.Http? ==>
                  && continuation == Some(yielded + |pending|)
                  && |pending| <= 1
                  && (pending != [] ==> entry.reader.script(yielded) == Item(pending[0]))))
    }

    /** Nothing has asked the server ahead of this reader. */
    ghost predicate InStep()
      requires Valid()
      reads this, entry, entry.reader
    {
      !finished ==> Ready(entry.View(), yielded + |pending|)
    }

    /** State just before the first turn. */
    constructor (entry: ResultEntry, mode: Mode)
      requires entry.Valid()
      ensures this.entry == entry && this.mode == mode
      ensures Valid() && yielded == 0 && !finished && pending == []
    {
      this.entry := entry;
      this.mode := mode;
      pending := [];
      continuation := Some(0);
      cursor := 0;
      finished := false;
      yielded := 0;
    }

    ghost function Where(): Position
      reads this, entry, entry.reader
    {
      Position(Valid(), finished, yielded, Valid() && InStep())
    }

    /** `RemoteReader::open`: over HTTP the first turn is taken at once, and its failure fails the open;
        over a byte stream only the stream itself is opened. */
    method Open(net: Exchange) returns (error: Option<AdbcError>)
      requires Valid() && yielded == 0 && !finished && pending == []
      modifies this, entry, entry.reader
      ensures error.None? ==> Valid() && yielded == 0
      ensures mode.ByteStream? || net.lost.Some? ==> error == net.lost
      ensures error.None? && finished ==> entry.reader.script(0).Exhausted?
      ensures old(Ready(entry.View(), 0)) && Quiet(net, 0) ==>
                && (error.Some? <==> mode.Http? && entry.reader.script(0).Broken?)
                && (error.Some? ==> error.value == entry.reader.script(0).error)
                && (error.None? ==> InStep() && (mode.Http? && entry.reader.script(0).Exhausted? ==> finished))
    {
      if mode == ByteStream {
        return net.lost;
      }
      var turn := ServerTurn(entry, 0, net);
      error := Begin(turn);
    }

    /** The first turn, whatever it is. */
    method Begin(turn: Turn) returns (error: Option<AdbcError>)
      modifies this`pending, this`continuation, this`finished
      ensures error == if turn.Refused? then Some(turn.error) else None
      ensures turn.Refused? ==> pending == old(pending) && continuation == old(continuation) && finished == old(finished)
      ensures turn.Turn? ==>
                && pending == (if turn.batch.Some? then [turn.batch.value] else [])
                && continuation == (if turn.batch.Some? then turn.token else None)
                && (finished <==> turn.finished || turn.batch.None?)
    {
      match turn {
        case Refused(e) =>
          error := Some(e);
        case Turn(batch, token, done) =>
          error := None;
          match batch {
            case Some(b) =>
              pending, continuation, finished := [b], token, done;
            case None =>
              pending, continuation, finished := [], None, true;
          }
      }
    }

    /** `next_remote`. */
    method NextRemote(net: Exchange) returns (r: Result<Option<Batch>, AdbcError>)
      requires entry.Valid()
      modifies this, entry, entry.reader
      ensures entry.Valid()
      ensures old(Valid()) ==> Delivers(entry.reader.script, old(Where()), Where(), net, r)
      ensures old(finished) ==> r == Ok(None) && finished
      ensures mode.Http? && !old(finished) ==> Local(old(pending), old(continuation), pending, continuation, finished, r)
    {
      if finished {
        return Ok(None);
      }
      match mode {
        case Http => r := NextHttp(net);
        case ByteStream => r := NextByte(net);
      }
    }

    /** The HTTP half: the pending batch first, then one more turn at the continuation token; without a
        token the stream is over. */
    method NextHttp(net: Exchange) returns (r: Result<Option<Batch>, AdbcError>)
      requires entry.Valid() && mode.Http? && !finished
      modifies this, entry, entry.reader
      ensures entry.Valid()
      ensures old(Valid()) ==> Delivers(entry.reader.script, old(Where()), Where(), net, r)
      ensures Local(old(pending), old(continuation), pending, continuation, finished, r)
    {
      if pending != [] {
        var batch := pending[0];
        pending := pending[1..];
        yielded := yielded + 1;
        return Ok(Some(batch));
      }
      if continuation.None? {
        finished := true;
        return Ok(None);
      }
      r := ResumeStream(continuation.value, net);
    }

    /** One more turn at `token`, which is used up by asking. */
    method ResumeStream(token: int, net: Exchange) returns (r: Result<Option<Batch>, AdbcError>)
      requires entry.Valid() && mode.Http? && !finished && pending == [] && continuation == Some(token)
      modifies this, entry, entry.reader
      ensures entry.Valid()
      ensures old(Valid()) ==> Delivers(entry.reader.script, old(Where()), Where(), net, r)
    {
      continuation := None;
      var turn := ServerTurn(entry, token, net);
      match turn {
        case Refused(e) =>
          r := Err(e);
        case Turn(batch, next, done) =>
          if batch.Some? {
            continuation := next;
            yielded := yielded + 1;
            finished := done || continuation.None?;
          } else {
            finished := true;
          }
          r := Ok(batch);
      }
    }

    /** The byte-stream half: the producer on the other end keeps the cursor. */
    method NextByte(net: Exchange) returns (r: Result<Option<Batch>, AdbcError>)
      requires entry.Valid() && mode.ByteStream? && !finished
      modifies this, entry, entry.reader
      ensures entry.Valid()
      ensures old(Valid()) ==> Delivers(entry.reader.script, old(Where()), Where(), net, r)
    {
      var turn := ServerTurn(entry, cursor, net);
      match turn {
        case Refused(e) =>
          r := Err(e);
        case Turn(batch, _, _) =>
          if batch.Some? {
            cursor := cursor + 1;
            yielded := yielded + 1;
          }
          finished := batch.None?;
          r := Ok(batch);
      }
    }

    /** `Iterator::next`: an error finishes the reader. */
    method Next(net: Exchange) returns (y: Yield)
      requires entry.Valid()
      modifies this, entry, entry.reader
      ensures entry.Valid()
      ensures old(finished) ==> y == EndOfStream && finished
      ensures mode.Http? && !old(finished) && old(pending) != [] ==>
                y == Value(old(pending)[0]) && pending == old(pending)[1..] && continuation == old(continuation) && !finished
      ensures mode.Http? && !old(finished) && old(pending) == [] && old(continuation).None? ==> y == EndOfStream
      ensures old(Valid()) ==>
                && Valid()
                && (y.Value? ==> !old(finished) && !finished && yielded == old(yielded) + 1
                                 && entry.reader.script(old(yielded)) == Item(y.batch))
                && (!y.Value? ==> finished && yielded == old(yielded))
                && (y.EndOfStream? && !old(finished) ==>
                      AllItems(entry.reader.script, yielded) && entry.reader.script(yielded).Exhausted?)
      ensures old(Valid() && InStep()) && Quiet(net, old(yielded)) && !old(finished) ==>
                && InStep()
                && y == Expected(entry.reader.script(old(yielded)))
    {
      var r := NextRemote(net);
      match r {
        case Ok(Some(batch)) => y := Value(batch);
        case Ok(None) => y := EndOfStream;
        case Err(error) =>
          finished := true;
          y := Failure(error);
      }
    }
  }

  /** How far a reader is: whether it is positioned as it should be, finished, and what it has yielded. */
  datatype Position = Position(valid: bool, finished: bool, yielded: nat, inStep: bool)

  /** One step of a reader hands over the backend's next batch or reports its end; in step and
      undisturbed it fails exactly where the backend fails. */
  ghost predicate Delivers(script: nat -> Pull, before: Position, after: Position, net: Exchange,
                           r: Result<Option<Batch>, AdbcError>) {
    && (r.Err? ==> !before.finished && after.yielded == before.yielded)
    && (r.Ok? ==> after.valid)
    && (r.Ok? && r.value.Some? ==>
          && !before.finished && !after.finished && after.yielded == before.yielded + 1
          && script(before.yielded) == Item(r.value.value))
    && (r.Ok? && r.value.None? ==>
          && after.finished && after.yielded == before.yielded
          && (before.finished || (AllItems(script, after.yielded) && script(after.yielded).Exhausted?)))
    && (before.inStep && Quiet(net, before.yielded) && !before.finished ==>
          && (r.Err? <==> script(before.yielded).Broken?)
          && (r.Err? ==> r.error == script(before.yielded).error)
          && (r.Ok? ==> after.inStep))
  }

  /** What an unfinished HTTP reader does without asking anybody. */
  ghost predicate Local(pendingBefore: seq<Batch>, tokenBefore: Option<int>, pending: seq<Batch>, token: Option<int>,
                        finished: bool, r: Result<Option<Batch>, AdbcError>) {
    && (pendingBefore != [] ==>
          r == Ok(Some(pendingBefore[0])) && pending == pendingBefore[1..] && token == tokenBefore && !finished)
    && (pendingBefore == [] && tokenBefore.None? ==> r == Ok(None) && finished)
  }

  function Expected(pull: Pull): Yield {
    match pull
    case Item(batch) => Value(batch)
    case Broken(error) => Failure(error)
    case Exhausted => EndOfStream
  }

  /** `count` batches in order with no gap and no repeat, then one end or error, then only ends. */
  ghost predicate DeliveredPrefix(script: nat -> Pull, outputs: seq<Yield>, count: nat) {
    && count <= |outputs|
    && (forall i: nat | i < count :: script(i).Item? && outputs[i] == Value(script(i).batch))
    && (count < |outputs| ==>
          && !outputs[count].Value?
          && (outputs[count].EndOfStream? ==> script(count).Exhausted?))
    && (forall i: nat | count < i < |outputs| :: outputs[i] == EndOfStream)
  }

  lemma ExtendPrefix(script: nat -> Pull, outputs: seq<Yield>, count: nat, y: Yield)
    requires DeliveredPrefix(script, outputs, count)
    requires y.Value? ==> count == |outputs| && script(count) == Item(y.batch)
    requires !y.Value? && count < |outputs| ==> y.EndOfStream?
    requires y.EndOfStream? && count == |outputs| ==> script(count).Exhausted?
    ensures DeliveredPrefix(script, outputs + [y], if y.Value? then count + 1 else count)
  {
  }

  /**
    A whole client run against a fresh result: open, then one `next` per element of `nets`.
    The first clause holds for every behaviour of the network and of other clients. The second adds
    that, if nothing is lost and nobody asks ahead, the reader reproduces the backend reader exactly.
  */
  method ReadAll(script: nat -> Pull, mode: Mode, opening: Exchange, nets: seq<Exchange>)
    returns (failed: Option<AdbcError>, outputs: seq<Yield>, count: nat)
    ensures failed.None? ==> |outputs| == |nets| && DeliveredPrefix(script, outputs, count)
    ensures Quiet(opening, 0) && (forall i: nat | i < |nets| :: Quiet(nets[i], i)) ==>
              && (failed == if mode.Http? && script(0).Broken? then Some(script(0).error) else None)
              && (failed.None? && count < |nets| ==> outputs[count] == Expected(script(count)))
  {
    var reader := new BackendReader(script);
    var entry := new ResultEntry(reader);
    var remote := new RemoteReader(entry, mode);
    outputs, count := [], 0;
    failed := remote.Open(opening);
    if failed.Some? {
      return;
    }
    ghost var quiet := Quiet(opening, 0) && (forall i: nat | i < |nets| :: Quiet(nets[i], i));
    var i := 0;
    while i < |nets|
      invariant 0 <= i <= |nets| && |outputs| == i
      invariant remote.Valid() && fresh(remote) && fresh(entry) && fresh(reader)
      invariant remote.entry == entry && entry.reader == reader && reader.script == script
      invariant count == remote.yielded
      invariant DeliveredPrefix(script, outputs, count)
      invariant !remote.finished ==> count == i
      invariant remote.finished && count == i ==> script(count).Exhausted?
      invariant quiet ==> remote.InStep()
      invariant quiet && count < i ==> outputs[count] == Expected(script(count))
    {
      var y := remote.Next(nets[i]);
      ExtendPrefix(script, outputs, count, y);
      if y.Value? {
        count := count + 1;
      }
      outputs := outputs + [y];
      i := i + 1;
    }
  }

  /**
    Why the producer's discipline matters. Any first turn at all: its batch is lost exactly if the turn
    also finishes the stream, because a finished reader never looks at its pending queue; and a turn
    with a batch but no token ends the stream behind that batch, whatever the backend still has.
  */
  method FirstTurnFate(entry: ResultEntry, turn: Turn, first: Exchange, second: Exchange) returns (y: Yield, z: Yield)
    requires entry.Valid() && turn.Turn?
    modifies entry, entry.reader
    ensures turn.batch.Some? ==> (y != Value(turn.batch.value) <==> turn.finished)
    ensures turn.batch.None? || turn.finished ==> y == EndOfStream && z == EndOfStream
    ensures turn.batch.Some? && turn.token.None? ==> z == EndOfStream
  {
    var remote := new RemoteReader(entry, Http);
    var _ := remote.Begin(turn);
    y := remote.Next(first);
    z := remote.Next(second);
  }
}
