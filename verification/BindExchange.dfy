/**
  End-to-end parameter binding: the client's `bind_batches` loop, the exchange
  turns it sends, the server's `BindExchange` handler, the upload actor behind
  it and `finish_bind_upload`. The transport may lose a turn or its reply, and
  may repeat any turn that it has seen, at once or much later.
*/
module BindExchange {
  import opened Prelude
  import opened BoundedEncoding
  import opened BindUpload

  // ---- Turns ----

  datatype TurnRow = TurnRow(payload: Option<seq<Byte>>, finish: Option<bool>)

  /** A turn on the wire; `declared` says whether its schema is the bind turn schema. */
  datatype BindTurn = BindTurn(declared: bool, rows: seq<TurnRow>)

  function Payload(turn: BindTurn): seq<Byte> {
    if |turn.rows| == 1 && turn.rows[0].payload.Some? then turn.rows[0].payload.value else []
  }

  function EncodeBindTurn(codec: Codec<Batch>, batch: Option<Batch>, limit: nat): Option<BindTurn> {
    match batch
    case None => Some(BindTurn(true, [TurnRow(Some([]), Some(true))]))
    case Some(b) =>
      match Encode(codec, b, limit)
      case None => None
      case Some(payload) => Some(BindTurn(true, [TurnRow(Some(payload), Some(false))]))
  }

  function TurnError(message: string): AdbcError {
    AdbcError(InvalidArguments, message)
  }

  function RowCount(rows: nat): AdbcError {
    AdbcError(InvalidArguments, "a turn has exactly one row", [rows])
  }

  ghost function DecodeBindTurn(codec: Codec<Batch>, turn: BindTurn, limit: nat): Result<Option<Batch>, AdbcError> {
    if |turn.rows| != 1 then Err(RowCount(|turn.rows|))
    else if !turn.declared then Err(TurnError("unexpected bind turn schema"))
    else if turn.rows[0].payload.None? then Err(TurnError("null bind payload field"))
    else if turn.rows[0].finish.None? then Err(TurnError("null bind finish field"))
    else if turn.rows[0].finish.value then
      if Payload(turn) != [] then Err(TurnError("bind finish payload must be empty")) else Ok(None)
    else
      match Decode(codec, Payload(turn), limit)
      case None => Err(TurnError("invalid bind payload"))
      case Some(batch) => Ok(Some(batch))
  }

  /** `decode_bind_turn`. */
  method ReadBindTurn(codec: Codec<Batch>, turn: BindTurn, limit: nat) returns (decoded: Result<Option<Batch>, AdbcError>)
    ensures decoded == DecodeBindTurn(codec, turn, limit)
  {
    if |turn.rows| != 1 {
      return Err(RowCount(|turn.rows|));
    }
    if !turn.declared {
      return Err(TurnError("unexpected bind turn schema"));
    }
    if turn.rows[0].payload.None? {
      return Err(TurnError("null bind payload field"));
    }
    if turn.rows[0].finish.None? {
      return Err(TurnError("null bind finish field"));
    }
    var payload := turn.rows[0].payload.value;
    if turn.rows[0].finish.value {
      return if payload != [] then Err(TurnError("bind finish payload must be empty")) else Ok(None);
    }
    var batch := DecodeBatchIpc(codec, payload, limit);
    decoded := if batch.None? then Err(TurnError("invalid bind payload")) else Ok(batch);
  }

  /** A turn is read back as what was sent, or refused; a batch never turns into a finish or another batch. */
  lemma TurnRoundTrip(codec: Codec<Batch>, batch: Option<Batch>, sent: nat, received: nat)
    requires Lossless(codec) && EncodeBindTurn(codec, batch, sent).Some?
    ensures var turn := EncodeBindTurn(codec, batch, sent).value;
            var decoded := DecodeBindTurn(codec, turn, received);
            && (decoded.Ok? ==> decoded.value == batch)
            && (decoded.Ok? <==> batch.None? || (|Payload(turn)| <= received && Buffers(codec, batch.value) <= received))
  {
    if batch.Some? {
      EncodedDecodes(codec, batch.value, sent, received);
    }
  }

  /** Which turns are accepted at all, and as what. */
  lemma TurnAcceptedIff(codec: Codec<Batch>, turn: BindTurn, limit: nat)
    ensures var decoded := DecodeBindTurn(codec, turn, limit);
            && (decoded == Ok(None) <==>
                  turn.declared && turn.rows == [TurnRow(Some([]), Some(true))])
            && (decoded.Ok? && decoded.value.Some? <==>
                  && turn.declared && |turn.rows| == 1
                  && turn.rows[0].finish == Some(false) && turn.rows[0].payload.Some?
                  && Decode(codec, turn.rows[0].payload.value, limit).Some?)
            && (decoded.Ok? && decoded.value.Some? ==> decoded.value == Decode(codec, turn.rows[0].payload.value, limit))
  {
  }

  /** Whoever manages to read `turn` reads `content`. */
  ghost predicate Means(codec: Codec<Batch>, turn: BindTurn, content: Option<Batch>) {
    forall limit: nat :: var decoded := DecodeBindTurn(codec, turn, limit);
                         decoded.Ok? ==> decoded.value == content
  }

  lemma EncodedMeans(codec: Codec<Batch>, batch: Option<Batch>, limit: nat)
    requires Lossless(codec) && EncodeBindTurn(codec, batch, limit).Some?
    ensures Means(codec, EncodeBindTurn(codec, batch, limit).value, batch)
  {
    forall received: nat {
      TurnRoundTrip(codec, batch, limit, received);
    }
  }

  // ---- The environment ----

  datatype Mode = BatchMode | StreamMode

  /** What the backend statement did with `bind`; a late bind happened after the caller's timeout. */
  datatype BindFate = BoundInTime | RefusedByBackend | BoundLate

  /** What meets a turn at the server: somebody may have removed the upload first, and the writer, the
      staged file and the statement have their own outcomes. */
  datatype Arrival = Arrival(removed: bool, write: Write, reopen: Option<AdbcError>, readable: bool, bind: BindFate)

  ghost predicate Smooth(a: Arrival) {
    !a.removed && a.write.Written? && a.reopen.None? && a.readable && a.bind.BoundInTime?
  }

  /** One more copy of the turn that was sent as number `turn`. */
  datatype Repeat = Repeat(turn: nat, arrival: Arrival)

  datatype Delivery = Acknowledged | RequestLost | ReplyLost

  /** One turn through the transport: first any copies of the turns sent so far, this one included,
      then the turn whose reply the client waits for. */
  datatype Net = Net(repeats: seq<Repeat>, delivery: Delivery, arrival: Arrival)

  function Brought(sent: seq<Batch>, repeat: Repeat): seq<Batch> {
    if repeat.turn < |sent| then [sent[repeat.turn]] else []
  }

  /** The batches that the copies bring, in the order of their arrival; other copies bring none. */
  function Copies(sent: seq<Batch>, repeats: seq<Repeat>): seq<Batch> {
    if repeats == [] then []
    else
      var n := |repeats| - 1;
      Copies(sent, repeats[..n]) + Brought(sent, repeats[n])
  }

  function RepeatBytes(repeats: seq<Repeat>): nat {
    if repeats == [] then 0
    else RepeatBytes(repeats[..|repeats| - 1]) + repeats[|repeats| - 1].arrival.write.bytes
  }

  /** The turns that the transport has seen: one per batch sent, and perhaps the finish. */
  ghost predicate OnWire(codec: Codec<Batch>, wire: seq<BindTurn>, sent: seq<Batch>) {
    && |sent| <= |wire| <= |sent| + 1
    && forall j: nat | j < |wire| :: Means(codec, wire[j], if j < |sent| then Some(sent[j]) else None)
  }

  /** The server accepts every turn on the wire as a message. */
  ghost predicate Legible(codec: Codec<Batch>, maxBytes: nat, wire: seq<BindTurn>) {
    forall j: nat | j < |wire| :: DecodeBindTurn(codec, wire[j], Min(maxBytes, MAX_CONTROL_BYTES)).Ok?
  }

  /** Copies of batch turns only, none of which meets a fault. */
  ghost predicate SmoothCopies(sent: nat, repeats: seq<Repeat>) {
    forall i: nat | i < |repeats| :: repeats[i].turn < sent && Smooth(repeats[i].arrival)
  }

  // ---- The server ----

  /** The server side of one bind exchange. */
  class BindSession {
    const codec: Codec<Batch>
    const mode: Mode
    const maxBytes: nat
    var upload: Option<UploadActor>
    var bound: seq<seq<Batch>>          // every bind the statement received from this exchange

    /** `batches` are staged, unless the upload failed to start or is gone. */
    ghost predicate Staging(batches: seq<Batch>)
      reads this, if upload.Some? then {upload.value} else {}
    {
      upload.Some? ==>
        && upload.value.Valid()
        && !Over(upload.value.history)
        && (upload.value.startup.Started? ==>
              && FirstError(upload.value.startup, upload.value.limit, upload.value.history).None?
              && Pushed(upload.value.history) == batches)
    }

    /** At most one bind, after which the upload is gone; in batch mode a bind has one batch. */
    ghost predicate Settled()
      reads this
    {
      bound == [] || (|bound| == 1 && upload.None? && (mode.BatchMode? ==> |bound[0]| == 1))
    }

    /** Bytes staged so far. */
    ghost function Used(): nat
      requires upload.Some? && upload.value.startup.Started?
      reads this, if upload.Some? then {upload.value} else {}
    {
      Staged(upload.value.startup.header, upload.value.history)
    }

    /** The upload is there and holds `bytes` bytes. */
    ghost predicate Holds(bytes: int)
      reads this, if upload.Some? then {upload.value} else {}
    {
      upload.Some? && upload.value.startup.Started? && Used() == bytes
    }

    /** There is room for `bytes` more bytes. */
    ghost predicate Room(bytes: int)
      reads this, if upload.Some? then {upload.value} else {}
    {
      upload.Some? && upload.value.startup.Started? && Used() + bytes <= upload.value.limit
    }

    /** Nothing at the server stands in the way of a turn. */
    ghost predicate Roomy(a: Arrival)
      reads this, if upload.Some? then {upload.value} else {}
    {
      Smooth(a) && Room(a.write.bytes)
    }

    constructor (codec: Codec<Batch>, mode: Mode, maxBytes: nat, startup: Startup)
      ensures this.codec == codec && this.mode == mode && this.maxBytes == maxBytes
      ensures bound == [] && Staging([]) && upload.Some? && fresh(upload.value)
      ensures upload.value.startup == startup && upload.value.limit == maxBytes
      ensures startup.Started? ==> Used() == startup.header
    {
      this.codec := codec;
      this.mode := mode;
      this.maxBytes := maxBytes;
      this.bound := [];
      var actor := new UploadActor(startup, maxBytes);
      this.upload := Some(actor);
    }

    method CancelUpload()
      modifies this
      ensures upload.None? && bound == old(bound)
    {
      upload := None;
    }

    /** `finish_bind_upload`. */
    method FinishUpload(a: Arrival, ghost batches: seq<Batch>) returns (ok: bool)
      requires Staging(batches) && Settled()
      modifies this, if upload.Some? then {upload.value} else {}
      ensures upload.None? && Settled()
      ensures bound == old(bound) || bound == [batches]
      ensures ok ==> old(upload).Some? && bound == [batches]
      ensures old(upload).None? ==> bound == old(bound)
      ensures bound != old(bound) ==>
                && a.write.Written? && a.reopen.None? && !a.bind.RefusedByBackend? && (mode.BatchMode? ==> a.readable)
      ensures ok <==> bound != old(bound) && a.bind.BoundInTime?
      ensures old(Roomy(a)) && (mode.BatchMode? ==> |batches| == 1) ==> ok
    {
      if upload.None? {
        return false;
      }
      var actor := upload.value;
      upload := None;
      var reply := actor.Handle(Finish(a.write, a.reopen));
      if !reply.Reader? {
        return false;
      }
      var reader := reply.batches;
      var parameters := reader;
      if mode == BatchMode {
        if reader == [] || !a.readable || reader[1..] != [] {
          return false;
        }
        parameters := [reader[0]];
      }
      assert parameters == batches;
      match a.bind {
        case BoundInTime =>
          bound := bound + [parameters];
          ok := true;
        case RefusedByBackend =>
          ok := false;
        case BoundLate =>
          bound := bound + [parameters];
          ok := false;
      }
    }

    /** `push_bind_upload`. */
    method PushUpload(batch: Batch, a: Arrival, ghost batches: seq<Batch>) returns (ok: bool)
      requires Staging(batches)
      modifies if upload.Some? then {upload.value} else {}
      ensures ok ==> upload.Some? && a.write.Written? && Staging(batches + [batch])
      ensures old(Roomy(a)) ==> ok && Holds(old(Used()) + a.write.bytes)
    {
      if upload.None? {
        return false;
      }
      var actor := upload.value;
      ghost var before := actor.history;
      var reply := actor.Handle(Push(batch, a.write));
      assert actor.history[..|before|] == before;
      OverGrows(before, Push(batch, a.write));
      ok := reply == Ack;
    }

    /** `BindExchange::exchange`: one turn, as the server runs it. */
    method Exchange(turn: BindTurn, a: Arrival, ghost batches: seq<Batch>, ghost content: Option<Batch>) returns (ok: bool)
      requires Staging(batches) && Settled() && Means(codec, turn, content)
      modifies this, if upload.Some? then {upload.value} else {}
      ensures Settled()
      ensures upload.Some? ==> upload == old(upload)
      ensures ok ==> old(upload).Some? && !a.removed && a.write.Written?
      ensures DecodeBindTurn(codec, turn, Min(maxBytes, MAX_CONTROL_BYTES)).Err? ==>
                !ok && upload.None? && bound == old(bound)
      ensures content.Some? ==> bound == old(bound) && Staging(batches + [content.value]) && (ok <==> upload.Some?)
      ensures content.None? ==> upload.None? && (bound == old(bound) || bound == [batches]) && (ok ==> bound == [batches])
      ensures old(Roomy(a)) && DecodeBindTurn(codec, turn, Min(maxBytes, MAX_CONTROL_BYTES)).Ok? ==>
                && (content.Some? ==> ok && Holds(old(Used()) + a.write.bytes))
                && (content.None? && (mode.BatchMode? ==> |batches| == 1) ==> ok)
    {
      if a.removed {
        CancelUpload();
      }
      var decoded := ReadBindTurn(codec, turn, Min(maxBytes, MAX_CONTROL_BYTES));
      if decoded.Err? {
        CancelUpload();
        return false;
      }
      match decoded.value {
        case Some(batch) =>
          ok := PushUpload(batch, a, batches);
          if !ok {
            CancelUpload();
          }
        case None =>
          ok := FinishUpload(a, batches);
      }
    }

    /** One copy: a batch is staged once more, the finish binds what is staged. */
    method Copy(wire: seq<BindTurn>, repeat: Repeat, ghost sent: seq<Batch>, ghost staged: seq<Batch>, ghost used: Option<nat>)
      requires Staging(staged) && Settled() && OnWire(codec, wire, sent)
      requires used.Some? ==>
                 && Holds(used.value) && Roomy(repeat.arrival)
                 && repeat.turn < |sent| && Legible(codec, maxBytes, wire)
      modifies this, if upload.Some? then {upload.value} else {}
      ensures Settled() && Staging(staged + Brought(sent, repeat))
      ensures upload.Some? ==> upload == old(upload)
      ensures bound == old(bound) || (|wire| > |sent| && bound == [staged])
      ensures used.Some? ==> Holds(used.value + repeat.arrival.write.bytes)
    {
      assert staged + [] == staged;
      if repeat.turn < |wire| {
        ghost var content := if repeat.turn < |sent| then Some(sent[repeat.turn]) else None;
        var _ := Exchange(wire[repeat.turn], repeat.arrival, staged, content);
      }
    }

    /** The copies that arrive before the next turn: every batch among them is staged once more.
        `used`, if given, is what is staged when they meet no fault. */
    method Repeated(wire: seq<BindTurn>, repeats: seq<Repeat>, ghost sent: seq<Batch>, ghost batches: seq<Batch>,
                    ghost used: Option<nat>)
      requires Staging(batches) && Settled() && OnWire(codec, wire, sent)
      requires used.Some? ==>
                 && Holds(used.value) && used.value + RepeatBytes(repeats) <= upload.value.limit
                 && SmoothCopies(|sent|, repeats) && Legible(codec, maxBytes, wire)
      modifies this, if upload.Some? then {upload.value} else {}
      ensures Settled() && Staging(batches + Copies(sent, repeats))
      ensures upload.Some? ==> upload == old(upload)
      ensures bound == old(bound) || (|wire| > |sent| && BoundMidway(bound, batches, sent, repeats))
      ensures used.Some? ==> Holds(used.value + RepeatBytes(repeats))
      decreases |repeats|
    {
      if repeats == [] {
        assert batches + [] == batches;
        return;
      }
      var n := |repeats| - 1;
      StagedNext(batches, sent, repeats, n);
      assert repeats[..n + 1] == repeats;
      Repeated(wire, repeats[..n], sent, batches, used);
      MidwayLonger(bound, batches, sent, repeats, n);
      Copy(wire, repeats[n], sent, batches + Copies(sent, repeats[..n]),
           if used.Some? then Some(used.value + RepeatBytes(repeats[..n])) else None);
    }

    /** A turn, the last one on the wire, through the transport: the client sees an acknowledgement or an error. */
    method Carry(wire: seq<BindTurn>, net: Net, ghost sent: seq<Batch>, ghost batches: seq<Batch>) returns (acked: bool)
      requires wire != [] && Staging(batches) && Settled() && OnWire(codec, wire, sent)
      modifies this, if upload.Some? then {upload.value} else {}
      ensures Settled()
      ensures upload.Some? ==> upload == old(upload)
      ensures |wire| == |sent| ==>
                && bound == old(bound)
                && (acked ==> Staging(batches + Copies(sent, net.repeats) + [sent[|sent| - 1]]))
      ensures |wire| > |sent| ==>
                && (bound == old(bound) || BoundMidway(bound, batches, sent, net.repeats))
                && (acked ==> bound == [batches + Copies(sent, net.repeats)])
      ensures acked ==> net.delivery.Acknowledged? && !net.arrival.removed && net.arrival.write.Written?
      ensures old(Room(TurnBytes(net))) && Benign(net, |sent|) && Legible(codec, maxBytes, wire) ==>
                && (|wire| == |sent| ==> acked && Holds(old(Used()) + TurnBytes(net)))
                && (|wire| > |sent| && (mode.BatchMode? ==> |batches + Copies(sent, net.repeats)| == 1) ==> acked)
    {
      ghost var clear := Room(TurnBytes(net)) && Benign(net, |sent|) && Legible(codec, maxBytes, wire);
      Repeated(wire, net.repeats, sent, batches, if clear then Some(Used()) else None);
      if net.delivery == RequestLost {
        return false;
      }
      ghost var staged := batches + Copies(sent, net.repeats);
      var ok := Exchange(wire[|wire| - 1], net.arrival, staged, if |wire| == |sent| then Some(sent[|sent| - 1]) else None);
      MidwayAtEnd(batches, sent, net.repeats);
      acked := ok && net.delivery == Acknowledged;
    }
  }

  /** A copy of the finish bound what was staged when it arrived. */
  ghost predicate BoundMidway(bound: seq<seq<Batch>>, batches: seq<Batch>, sent: seq<Batch>, repeats: seq<Repeat>) {
    exists m: nat | m <= |repeats| :: bound == [batches + Copies(sent, repeats[..m])]
  }

  /** One more copy, as the staged batches, the written bytes and a bind in between see it. */
  lemma StagedNext(batches: seq<Batch>, sent: seq<Batch>, repeats: seq<Repeat>, i: nat)
    requires i < |repeats|
    ensures batches + Copies(sent, repeats[..i + 1]) == batches + Copies(sent, repeats[..i]) + Brought(sent, repeats[i])
    ensures RepeatBytes(repeats[..i + 1]) == RepeatBytes(repeats[..i]) + repeats[i].arrival.write.bytes <= RepeatBytes(repeats)
    ensures BoundMidway([batches + Copies(sent, repeats[..i])], batches, sent, repeats)
  {
    CopiesNext(sent, repeats, i);
    RepeatBytesGrow(repeats, i + 1);
    Associative(batches, Copies(sent, repeats[..i]), Brought(sent, repeats[i]));
  }

  lemma MidwayLonger(bound: seq<seq<Batch>>, batches: seq<Batch>, sent: seq<Batch>, repeats: seq<Repeat>, n: nat)
    requires n <= |repeats|
    ensures BoundMidway(bound, batches, sent, repeats[..n]) ==> BoundMidway(bound, batches, sent, repeats)
  {
    if BoundMidway(bound, batches, sent, repeats[..n]) {
      var m: nat :| m <= n && bound == [batches + Copies(sent, repeats[..n][..m])];
      assert repeats[..n][..m] == repeats[..m];
    }
  }

  lemma MidwayAtEnd(batches: seq<Batch>, sent: seq<Batch>, repeats: seq<Repeat>)
    ensures BoundMidway([batches + Copies(sent, repeats)], batches, sent, repeats)
  {
    assert repeats[..|repeats|] == repeats;
  }

  lemma CopiesNext(sent: seq<Batch>, repeats: seq<Repeat>, i: nat)
    requires i < |repeats|
    ensures Copies(sent, repeats[..i + 1]) ==
            Copies(sent, repeats[..i]) + Brought(sent, repeats[i])
    ensures RepeatBytes(repeats[..i + 1]) == RepeatBytes(repeats[..i]) + repeats[i].arrival.write.bytes
  {
    assert repeats[..i + 1][..i] == repeats[..i];
  }

  lemma {:induction false} RepeatBytesGrow(repeats: seq<Repeat>, n: nat)
    requires n <= |repeats|
    ensures RepeatBytes(repeats[..n]) <= RepeatBytes(repeats)
  {
    if n == |repeats| {
      assert repeats[..n] == repeats;
    } else {
      var m := |repeats| - 1;
      assert repeats[..m][..n] == repeats[..n];
      RepeatBytesGrow(repeats[..m], n);
    }
  }

  ghost function TurnBytes(net: Net): nat {
    RepeatBytes(net.repeats) + net.arrival.write.bytes
  }

  /** The turn and all copies before it arrive, meet no fault, and the reply comes back. */
  ghost predicate Benign(net: Net, sent: nat) {
    net.delivery.Acknowledged? && Smooth(net.arrival) && SmoothCopies(sent, net.repeats)
  }

  // ---- What arrives ----

  /** Everything staged once all of `sent` has been acknowledged: copies before the turn they precede. */
  function Arrived(sent: seq<Batch>, nets: nat -> Net): seq<Batch> {
    if sent == [] then []
    else
      var n := |sent| - 1;
      Arrived(sent[..n], nets) + Copies(sent, nets(n).repeats) + [sent[n]]
  }

  /** Everything staged when the finish arrives. */
  function Whole(sent: seq<Batch>, nets: nat -> Net): seq<Batch> {
    Arrived(sent, nets) + Copies(sent, nets(|sent|).repeats)
  }

  lemma ArrivedNext(sent: seq<Batch>, batch: Batch, nets: nat -> Net)
    ensures Arrived(sent + [batch], nets) == Arrived(sent, nets) + Copies(sent + [batch], nets(|sent|).repeats) + [batch]
  {
    assert (sent + [batch])[..|sent|] == sent;
  }

  /** No copy of a batch turn arrives before turn `i`. */
  ghost predicate NoCopies(sent: seq<Batch>, nets: nat -> Net, i: nat) {
    Copies(sent[..Min(i + 1, |sent|)], nets(i).repeats) == []
  }

  /** Every batch turn takes effect once. */
  ghost predicate Unrepeated(sent: seq<Batch>, nets: nat -> Net) {
    forall i: nat | i <= |sent| :: NoCopies(sent, nets, i)
  }

  /** The same up to the last batch turn, turn by turn. */
  ghost predicate NoneCopied(sent: seq<Batch>, nets: nat -> Net) {
    sent == [] || (NoneCopied(sent[..|sent| - 1], nets) && Copies(sent, nets(|sent| - 1).repeats) == [])
  }

  lemma {:induction false} NoneCopiedEach(sent: seq<Batch>, nets: nat -> Net)
    ensures NoneCopied(sent, nets) <==> forall i: nat | i < |sent| :: NoCopies(sent, nets, i)
  {
    if sent != [] {
      var n := |sent| - 1;
      NoneCopiedEach(sent[..n], nets);
      assert sent[..n + 1] == sent;
      assert NoCopies(sent, nets, n) <==> Copies(sent, nets(n).repeats) == [];
      forall i: nat | i < n
        ensures NoCopies(sent[..n], nets, i) <==> NoCopies(sent, nets, i)
      {
        assert sent[..n][..i + 1] == sent[..i + 1];
      }
    }
  }

  lemma NoneCopiedAtFinish(sent: seq<Batch>, nets: nat -> Net)
    ensures Unrepeated(sent, nets) <==> NoneCopied(sent, nets) && Copies(sent, nets(|sent|).repeats) == []
  {
    NoneCopiedEach(sent, nets);
    assert sent[..|sent|] == sent;
    assert NoCopies(sent, nets, |sent|) <==> Copies(sent, nets(|sent|).repeats) == [];
  }

  /** Copies only ever add: what arrived is as long as what was sent exactly if nothing was copied. */
  lemma {:induction false} ArrivedExact(sent: seq<Batch>, nets: nat -> Net)
    ensures |Arrived(sent, nets)| >= |sent|
    ensures |Arrived(sent, nets)| == |sent| <==> NoneCopied(sent, nets)
    ensures NoneCopied(sent, nets) ==> Arrived(sent, nets) == sent
  {
    if sent != [] {
      var n := |sent| - 1;
      ArrivedExact(sent[..n], nets);
      assert sent[..n] + [sent[n]] == sent;
    }
  }

  /** Exactly once: what is staged at the finish is the input if and only if every batch turn took effect once. */
  lemma ExactIffUnrepeated(sent: seq<Batch>, nets: nat -> Net)
    ensures |Whole(sent, nets)| >= |sent|
    ensures Whole(sent, nets) == sent <==> Unrepeated(sent, nets)
    ensures |Whole(sent, nets)| == |sent| <==> Unrepeated(sent, nets)
  {
    ArrivedExact(sent, nets);
    NoneCopiedAtFinish(sent, nets);
  }

  lemma {:induction false} CopiesPrefix(sent: seq<Batch>, repeats: seq<Repeat>, m: nat)
    requires m <= |repeats|
    ensures |Copies(sent, repeats[..m])| <= |Copies(sent, repeats)|
  {
    if m == |repeats| {
      assert repeats[..m] == repeats;
    } else {
      var n := |repeats| - 1;
      assert repeats[..n][..m] == repeats[..m];
      CopiesPrefix(sent, repeats[..n], m);
    }
  }

  lemma NoneSentNoCopies(repeats: seq<Repeat>)
    ensures Copies([], repeats) == []
  {
  }

  /** The bind that a finish brought about: the staged batches when it, or a copy of it, arrived. */
  ghost predicate BoundTo(bound: seq<seq<Batch>>, sent: seq<Batch>, nets: nat -> Net) {
    BoundMidway(bound, Arrived(sent, nets), sent, nets(|sent|).repeats)
  }

  lemma NothingCopied(sent: seq<Batch>, nets: nat -> Net, copies: seq<Batch>)
    requires NoneCopied(sent, nets) && copies == []
    ensures Arrived(sent, nets) + copies == sent
  {
    ArrivedExact(sent, nets);
  }

  /** A bind of an unrepeated run has exactly the input, and so has any bind of a single batch. */
  lemma BoundExactly(bound: seq<seq<Batch>>, sent: seq<Batch>, nets: nat -> Net)
    requires BoundTo(bound, sent, nets)
    ensures |bound| == 1 && |bound[0]| >= |sent|
    ensures Unrepeated(sent, nets) ==> bound == [sent]
    ensures |bound[0]| == 1 ==> |sent| == 1 && bound == [sent]
  {
    var repeats := nets(|sent|).repeats;
    var m: nat :| m <= |repeats| && bound == [Arrived(sent, nets) + Copies(sent, repeats[..m])];
    var arrived, copies := Arrived(sent, nets), Copies(sent, repeats[..m]);
    assert bound[0] == arrived + copies;
    ArrivedExact(sent, nets);
    if Unrepeated(sent, nets) {
      NoneCopiedAtFinish(sent, nets);
      CopiesPrefix(sent, repeats, m);
      NothingCopied(sent, nets, copies);
    }
    if sent == [] {
      NoneSentNoCopies(repeats[..m]);
    }
    if |bound[0]| == 1 {
      NothingCopied(sent, nets, copies);
    }
  }

  // ---- The client ----

  function SumOf(size: Batch -> nat, batches: seq<Batch>): nat {
    if batches == [] then 0
    else SumOf(size, batches[..|batches| - 1]) + size(batches[|batches| - 1])
  }

  lemma {:induction false} SumGrows(size: Batch -> nat, batches: seq<Batch>, n: nat)
    requires n <= |batches|
    ensures SumOf(size, batches[..n]) <= SumOf(size, batches)
  {
    if n == |batches| {
      assert batches[..n] == batches;
    } else {
      var m := |batches| - 1;
      assert batches[..m][..n] == batches[..n];
      SumGrows(size, batches[..m], n);
    }
  }

  ghost function PayloadSize(codec: Codec<Batch>): Batch -> nat {
    (batch: Batch) => |codec.encode(batch)|
  }

  /** The turns put on the wire never exceed the client's budget, in memory or encoded, at any point. */
  ghost predicate WithinBudget(codec: Codec<Batch>, sent: seq<Batch>, budget: nat) {
    forall n: nat | n <= |sent| ::
      SumOf(codec.memory, sent[..n]) <= budget && SumOf(PayloadSize(codec), sent[..n]) <= budget
  }

  ghost predicate AllReadable(input: seq<Result<Batch, AdbcError>>) {
    forall i: nat | i < |input| :: input[i].Ok?
  }

  ghost function Values(input: seq<Result<Batch, AdbcError>>): seq<Batch>
    requires AllReadable(input)
  {
    seq(|input|, i requires 0 <= i < |input| => input[i].value)
  }

  ghost function WriteSum(nets: nat -> Net, n: nat): nat {
    if n == 0 then 0 else WriteSum(nets, n - 1) + TurnBytes(nets(n - 1))
  }

  lemma {:induction false} WriteSumGrows(nets: nat -> Net, m: nat, n: nat)
    requires m <= n
    ensures WriteSum(nets, m) <= WriteSum(nets, n)
  {
    if m < n {
      WriteSumGrows(nets, m, n - 1);
    }
  }

  /** The input is readable and fits every message and client budget, and nothing goes wrong on the way:
      batch turns may be copied, except where a single batch is wanted. */
  ghost predicate Fits(codec: Codec<Batch>, mode: Mode, maxBytes: nat, budget: nat, input: seq<Result<Batch, AdbcError>>,
                       nets: nat -> Net) {
    && AllReadable(input)
    && budget <= USIZE_MAX
    && SumOf(codec.memory, Values(input)) <= budget && SumOf(PayloadSize(codec), Values(input)) <= budget
    && (forall i: nat | i < |input| :: FitsTurn(codec, maxBytes, input[i].value))
    && (mode.BatchMode? ==> |Whole(Values(input), nets)| == 1)
    && (forall i: nat | i <= |input| :: Benign(nets(i), Min(i + 1, |input|)))
  }

  ghost predicate FitsTurn(codec: Codec<Batch>, maxBytes: nat, batch: Batch) {
    && codec.memory(batch) <= MAX_CONTROL_BYTES
    && Buffers(codec, batch) <= Min(maxBytes, MAX_CONTROL_BYTES)
    && |codec.encode(batch)| <= Min(maxBytes, MAX_CONTROL_BYTES)
  }

  /** `batch` still fits behind the totals so far. */
  ghost predicate FitsNext(codec: Codec<Batch>, maxBytes: nat, budget: nat, logical: nat, encoded: nat, batch: Batch) {
    && FitsTurn(codec, maxBytes, batch)
    && budget <= USIZE_MAX
    && logical + codec.memory(batch) <= budget && encoded + |codec.encode(batch)| <= budget
  }

  /** In addition everything that arrives fits the server's limit. */
  ghost predicate Unobstructed(budget: nat, input: seq<Result<Batch, AdbcError>>, session: BindSession, nets: nat -> Net)
    reads session, if session.upload.Some? then {session.upload.value} else {}
  {
    && Fits(session.codec, session.mode, session.maxBytes, budget, input, nets)
    && session.Room(WriteSum(nets, |input| + 1))
  }

  /**
    `bind_batches`: every input, every budget, every behaviour of the transport, the writer and the
    backend, lost and repeated turns included. The statement is bound at most once, to what arrived;
    it is bound to exactly the input if and only if every batch turn took effect once. In batch mode
    it is never bound to anything but the input, so a repeated turn makes the call fail.
  */
  method BindBatches(codec: Codec<Batch>, budget: nat, input: seq<Result<Batch, AdbcError>>, session: BindSession,
                     nets: nat -> Net, cancelArrives: bool)
    returns (ok: bool, sent: seq<Batch>)
    requires Lossless(codec) && session.codec == codec
    requires session.bound == [] && session.Staging([])
    modifies session, if session.upload.Some? then {session.upload.value} else {}
    ensures session.bound != [] ==> AllReadable(input) && BoundTo(session.bound, Values(input), nets)
    ensures session.bound != [] && Unrepeated(Values(input), nets) ==> session.bound == [Values(input)]
    ensures session.bound != [] && session.mode.BatchMode? ==> |input| == 1 && session.bound == [Values(input)]
    ensures ok ==>
              && AllReadable(input)
              && session.bound == [Whole(Values(input), nets)]
              && (session.bound == [Values(input)] <==> Unrepeated(Values(input), nets))
              && (session.mode.BatchMode? ==> Unrepeated(Values(input), nets))
    ensures WithinBudget(codec, sent, budget)
    ensures |sent| <= |input| && forall i: nat | i < |sent| :: input[i] == Ok(sent[i]) && FitsMessage(codec, sent[i])
    ensures old(Unobstructed(budget, input, session, nets)) ==> ok
    ensures !ok && cancelArrives ==> session.upload.None?
  {
    ghost var clear := Unobstructed(budget, input, session, nets);
    ghost var used := if clear then session.Used() else 0;
    var wire;
    ok, sent, wire := SendBatches(codec, budget, input, session, nets);
    BudgetHolds(codec, sent, budget);
    if clear {
      CourseEnds(budget, input, session, nets, wire, used, sent);
    }
    if ok {
      assert Values(input) == sent;
      ExactIffUnrepeated(sent, nets);
      ok := SendFinish(codec, budget, session, nets(|input|), wire, sent, Arrived(sent, nets));
      if session.bound != [] {
        BoundExactly(session.bound, sent, nets);
      }
    }
    if !ok && cancelArrives {
      session.CancelUpload();
    }
  }

  /** One pass of the sending loop: the budgets are charged before the turn goes out. */
  method SendOne(codec: Codec<Batch>, budget: nat, logical: nat, encoded: nat, batch: Batch, session: BindSession, net: Net,
                 before: seq<BindTurn>, ghost sent: seq<Batch>, ghost staged: seq<Batch>)
    returns (acked: bool, wire: seq<BindTurn>, logicalBytes: nat, encodedBytes: nat)
    requires Lossless(codec) && session.codec == codec && session.bound == [] && session.Staging(staged)
    requires OnWire(codec, before, sent) && |before| == |sent|
    modifies session, if session.upload.Some? then {session.upload.value} else {}
    ensures session.bound == []
    ensures session.upload.Some? ==> session.upload == old(session.upload)
    ensures wire == before || (|wire| == |before| + 1 && OnWire(codec, wire, sent + [batch]))
    ensures acked ==> wire != before && session.Staging(staged + Copies(sent + [batch], net.repeats) + [batch])
    ensures wire != before ==>
              && logicalBytes == logical + codec.memory(batch) <= budget
              && encodedBytes == encoded + |codec.encode(batch)| <= budget
              && FitsMessage(codec, batch)
    ensures old(session.Room(TurnBytes(net))) && Benign(net, |sent| + 1) && Legible(codec, session.maxBytes, before)
            && FitsNext(codec, session.maxBytes, budget, logical, encoded, batch) ==>
              && acked && Legible(codec, session.maxBytes, wire)
              && session.Holds(old(session.Used()) + TurnBytes(net))
  {
    acked, wire := false, before;
    logicalBytes, encodedBytes := logical + codec.memory(batch), encoded;
    if logicalBytes > USIZE_MAX || logicalBytes > budget {
      return;
    }
    var turnLimit := Min(budget, MAX_CONTROL_BYTES);
    var turn := EncodeBindTurn(codec, Some(batch), turnLimit);
    if turn.None? {
      return;
    }
    encodedBytes := encoded + |Payload(turn.value)|;
    if encodedBytes > USIZE_MAX || encodedBytes > budget {
      return;
    }
    EncodedMeans(codec, Some(batch), turnLimit);
    TurnRoundTrip(codec, Some(batch), turnLimit, Min(session.maxBytes, MAX_CONTROL_BYTES));
    wire := before + [turn.value];
    WireNext(codec, session.maxBytes, before, turn.value, sent, batch);
    acked := session.Carry(wire, net, sent + [batch], staged);
  }

  lemma WireNext(codec: Codec<Batch>, maxBytes: nat, before: seq<BindTurn>, turn: BindTurn, sent: seq<Batch>, batch: Batch)
    requires OnWire(codec, before, sent) && |before| == |sent| && Means(codec, turn, Some(batch))
    ensures OnWire(codec, before + [turn], sent + [batch])
    ensures Legible(codec, maxBytes, before) && DecodeBindTurn(codec, turn, Min(maxBytes, MAX_CONTROL_BYTES)).Ok? ==>
              Legible(codec, maxBytes, before + [turn])
  {
    var wire, all := before + [turn], sent + [batch];
    forall j: nat | j < |wire|
      ensures Means(codec, wire[j], Some(all[j]))
    {
      if j < |before| {
        assert Means(codec, before[j], if j < |sent| then Some(sent[j]) else None);
      }
    }
  }

  /** What is sent and staged when nothing has gone wrong so far. */
  ghost predicate Sending(codec: Codec<Batch>, budget: nat, input: seq<Result<Batch, AdbcError>>, session: BindSession,
                          nets: nat -> Net, wire: seq<BindTurn>, sent: seq<Batch>)
    reads session, if session.upload.Some? then {session.upload.value} else {}
  {
    && session.codec == codec && session.bound == [] && session.Staging(Arrived(sent, nets))
    && |wire| == |sent| && OnWire(codec, wire, sent)
    && SentPrefix(codec, budget, input, sent)
  }

  /** A turn never exceeds the size of a control message. */
  ghost predicate FitsMessage(codec: Codec<Batch>, batch: Batch) {
    codec.memory(batch) <= MAX_CONTROL_BYTES && |codec.encode(batch)| <= MAX_CONTROL_BYTES
  }

  ghost predicate SentPrefix(codec: Codec<Batch>, budget: nat, input: seq<Result<Batch, AdbcError>>, sent: seq<Batch>) {
    && |sent| <= |input| && (forall k: nat | k < |sent| :: input[k] == Ok(sent[k]) && FitsMessage(codec, sent[k]))
    && SumOf(codec.memory, sent) <= budget && SumOf(PayloadSize(codec), sent) <= budget
  }

  /** All is well and stays so: what is still to be written fits behind what is staged. */
  ghost predicate OnCourse(budget: nat, input: seq<Result<Batch, AdbcError>>, session: BindSession, nets: nat -> Net,
                           wire: seq<BindTurn>, used: nat, n: nat)
    reads session, if session.upload.Some? then {session.upload.value} else {}
  {
    && Fits(session.codec, session.mode, session.maxBytes, budget, input, nets)
    && Legible(session.codec, session.maxBytes, wire)
    && session.Holds(used + WriteSum(nets, n))
    && used + WriteSum(nets, |input| + 1) <= session.upload.value.limit
  }

  lemma PrefixNext(codec: Codec<Batch>, budget: nat, input: seq<Result<Batch, AdbcError>>, sent: seq<Batch>, batch: Batch)
    requires SentPrefix(codec, budget, input, sent) && |sent| < |input| && input[|sent|] == Ok(batch) && FitsMessage(codec, batch)
    requires SumOf(codec.memory, sent) + codec.memory(batch) <= budget
    requires SumOf(PayloadSize(codec), sent) + |codec.encode(batch)| <= budget
    ensures SentPrefix(codec, budget, input, sent + [batch])
    ensures SumOf(codec.memory, sent + [batch]) == SumOf(codec.memory, sent) + codec.memory(batch)
    ensures SumOf(PayloadSize(codec), sent + [batch]) == SumOf(PayloadSize(codec), sent) + |codec.encode(batch)|
  {
    SumNext(codec, sent, batch);
  }

  lemma CourseBegins(budget: nat, input: seq<Result<Batch, AdbcError>>, session: BindSession, nets: nat -> Net)
    requires Unobstructed(budget, input, session, nets)
    ensures OnCourse(budget, input, session, nets, [], session.Used(), 0)
  {
  }

  /** On course to the end, the finish meets no obstacle either. */
  lemma CourseEnds(budget: nat, input: seq<Result<Batch, AdbcError>>, session: BindSession, nets: nat -> Net,
                   wire: seq<BindTurn>, used: nat, sent: seq<Batch>)
    requires OnCourse(budget, input, session, nets, wire, used, |input|)
    requires |sent| == |input| && forall k: nat | k < |sent| :: input[k] == Ok(sent[k])
    ensures session.Room(TurnBytes(nets(|sent|))) && Benign(nets(|sent|), |sent|)
    ensures Legible(session.codec, session.maxBytes, wire)
    ensures session.mode.BatchMode? ==> |Whole(sent, nets)| == 1
  {
    assert Values(input) == sent;
    assert Benign(nets(|input|), Min(|input| + 1, |input|));
    WriteSumNext(nets, |input|, |input| + 1);
  }

  /** On course there is room for the next turn. */
  lemma CourseHasRoom(budget: nat, input: seq<Result<Batch, AdbcError>>, session: BindSession, nets: nat -> Net,
                      wire: seq<BindTurn>, used: nat, n: nat)
    requires OnCourse(budget, input, session, nets, wire, used, n) && n < |input|
    ensures session.Room(TurnBytes(nets(n)))
  {
    WriteSumNext(nets, n, |input| + 1);
  }

  /** And stays on course once that turn is staged. */
  lemma CourseHolds(budget: nat, input: seq<Result<Batch, AdbcError>>, session: BindSession, nets: nat -> Net,
                    wire: seq<BindTurn>, used: nat, n: nat)
    requires n < |input| && Fits(session.codec, session.mode, session.maxBytes, budget, input, nets)
    requires Legible(session.codec, session.maxBytes, wire)
    requires session.Holds(used + WriteSum(nets, n) + TurnBytes(nets(n)))
    requires used + WriteSum(nets, |input| + 1) <= session.upload.value.limit
    ensures OnCourse(budget, input, session, nets, wire, used, n + 1)
  {
    WriteSumNext(nets, n, |input| + 1);
  }

  /** One element of the input: a read error ends the loop, a batch is charged and sent. */
  method SendNext(codec: Codec<Batch>, budget: nat, input: seq<Result<Batch, AdbcError>>, session: BindSession, nets: nat -> Net,
                  wireBefore: seq<BindTurn>, before: seq<Batch>, logical: nat, encoded: nat, ghost used: nat)
    returns (acked: bool, wire: seq<BindTurn>, sent: seq<Batch>, logicalBytes: nat, encodedBytes: nat)
    requires Lossless(codec) && Sending(codec, budget, input, session, nets, wireBefore, before) && |before| < |input|
    requires logical == SumOf(codec.memory, before) && encoded == SumOf(PayloadSize(codec), before)
    modifies session, if session.upload.Some? then {session.upload.value} else {}
    ensures session.bound == [] && SentPrefix(codec, budget, input, sent)
    ensures session.upload.Some? ==> session.upload == old(session.upload)
    ensures acked ==>
              && |sent| == |before| + 1 && Sending(codec, budget, input, session, nets, wire, sent)
              && logicalBytes == SumOf(codec.memory, sent) && encodedBytes == SumOf(PayloadSize(codec), sent)
    ensures old(OnCourse(budget, input, session, nets, wireBefore, used, |before|)) ==>
              acked && OnCourse(budget, input, session, nets, wire, used, |before| + 1)
  {
    wire, sent, logicalBytes, encodedBytes := wireBefore, before, logical, encoded;
    if input[|before|].Err? {
      return false, wire, sent, logicalBytes, encodedBytes;
    }
    var batch := input[|before|].value;
    ghost var clear := OnCourse(budget, input, session, nets, wireBefore, used, |before|);
    if clear {
      CourseHasRoom(budget, input, session, nets, wireBefore, used, |before|);
      TurnFits(codec, session.mode, session.maxBytes, budget, input, nets, |before|);
      BudgetForNext(codec, budget, input, before);
    }
    acked, wire, logicalBytes, encodedBytes :=
      SendOne(codec, budget, logical, encoded, batch, session, nets(|before|), wireBefore, before, Arrived(before, nets));
    if |wire| > |wireBefore| {
      PrefixNext(codec, budget, input, before, batch);
      ArrivedNext(before, batch, nets);
      sent := before + [batch];
    }
    if clear {
      CourseHolds(budget, input, session, nets, wire, used, |before|);
    }
  }

  /** The sending loop. */
  method SendBatches(codec: Codec<Batch>, budget: nat, input: seq<Result<Batch, AdbcError>>, session: BindSession, nets: nat -> Net)
    returns (ok: bool, sent: seq<Batch>, wire: seq<BindTurn>)
    requires Lossless(codec) && session.codec == codec
    requires session.bound == [] && session.Staging([])
    modifies session, if session.upload.Some? then {session.upload.value} else {}
    ensures session.bound == []
    ensures session.upload.Some? ==> session.upload == old(session.upload)
    ensures SentPrefix(codec, budget, input, sent)
    ensures ok ==> |sent| == |input| && Sending(codec, budget, input, session, nets, wire, sent)
    ensures old(Unobstructed(budget, input, session, nets)) ==>
              ok && OnCourse(budget, input, session, nets, wire, old(session.Used()), |input|)
  {
    ghost var clear := Unobstructed(budget, input, session, nets);
    ghost var used := if clear then session.Used() else 0;
    if clear {
      CourseBegins(budget, input, session, nets);
    }
    var logicalBytes, encodedBytes := 0, 0;
    ok, sent, wire := true, [], [];
    for i := 0 to |input|
      invariant ok && |sent| == i && Sending(codec, budget, input, session, nets, wire, sent)
      invariant session.upload.Some? ==> session.upload == old(session.upload)
      invariant logicalBytes == SumOf(codec.memory, sent) && encodedBytes == SumOf(PayloadSize(codec), sent)
      invariant clear ==> OnCourse(budget, input, session, nets, wire, used, i)
    {
      ok, wire, sent, logicalBytes, encodedBytes :=
        SendNext(codec, budget, input, session, nets, wire, sent, logicalBytes, encodedBytes, used);
      if !ok {
        return;
      }
    }
  }

  lemma SumNext(codec: Codec<Batch>, sent: seq<Batch>, batch: Batch)
    ensures SumOf(codec.memory, sent + [batch]) == SumOf(codec.memory, sent) + codec.memory(batch)
    ensures SumOf(PayloadSize(codec), sent + [batch]) == SumOf(PayloadSize(codec), sent) + |codec.encode(batch)|
  {
    assert (sent + [batch])[..|sent|] == sent;
  }

  method SendFinish(codec: Codec<Batch>, budget: nat, session: BindSession, net: Net, before: seq<BindTurn>,
                    ghost sent: seq<Batch>, ghost staged: seq<Batch>)
    returns (acked: bool)
    requires Lossless(codec) && session.codec == codec && session.bound == [] && session.Staging(staged)
    requires OnWire(codec, before, sent) && |before| == |sent|
    modifies session, if session.upload.Some? then {session.upload.value} else {}
    ensures session.Settled()
    ensures session.bound == [] || BoundMidway(session.bound, staged, sent, net.repeats)
    ensures acked ==> session.bound == [staged + Copies(sent, net.repeats)]
    ensures old(session.Room(TurnBytes(net))) && Benign(net, |sent|) && Legible(codec, session.maxBytes, before) ==>
              ((session.mode.BatchMode? ==> |staged + Copies(sent, net.repeats)| == 1) ==> acked)
  {
    var turnLimit := Min(budget, MAX_CONTROL_BYTES);
    var finish := EncodeBindTurn(codec, None, turnLimit);
    EncodedMeans(codec, None, turnLimit);
    acked := session.Carry(before + [finish.value], net, sent, staged);
  }

  /** The next turn, in its place among all turns. */
  lemma WriteSumNext(nets: nat -> Net, n: nat, all: nat)
    requires n < all
    ensures WriteSum(nets, n + 1) == WriteSum(nets, n) + TurnBytes(nets(n)) <= WriteSum(nets, all)
  {
    WriteSumGrows(nets, n + 1, all);
  }

  /** The next batch still fits the client's budgets. */
  lemma BudgetForNext(codec: Codec<Batch>, budget: nat, input: seq<Result<Batch, AdbcError>>, sent: seq<Batch>)
    requires AllReadable(input) && |sent| < |input|
    requires SumOf(codec.memory, Values(input)) <= budget && SumOf(PayloadSize(codec), Values(input)) <= budget
    requires forall k: nat | k < |sent| :: input[k] == Ok(sent[k])
    ensures var batch := input[|sent|].value;
            && SumOf(codec.memory, sent) + codec.memory(batch) <= budget
            && SumOf(PayloadSize(codec), sent) + |codec.encode(batch)| <= budget
  {
    ValuesSent(input, sent);
    PrefixFits(codec, budget, Values(input), |sent|);
  }

  /** Where everything fits, batch `n` fits its turn and the turn meets no fault. */
  lemma TurnFits(codec: Codec<Batch>, mode: Mode, maxBytes: nat, budget: nat, input: seq<Result<Batch, AdbcError>>,
                 nets: nat -> Net, n: nat)
    requires Fits(codec, mode, maxBytes, budget, input, nets) && n < |input|
    ensures AllReadable(input) && budget <= USIZE_MAX
    ensures SumOf(codec.memory, Values(input)) <= budget && SumOf(PayloadSize(codec), Values(input)) <= budget
    ensures FitsTurn(codec, maxBytes, input[n].value) && Benign(nets(n), n + 1)
  {
    assert Benign(nets(n), Min(n + 1, |input|));
  }

  lemma ValuesSent(input: seq<Result<Batch, AdbcError>>, sent: seq<Batch>)
    requires AllReadable(input) && |sent| < |input|
    requires forall k: nat | k < |sent| :: input[k] == Ok(sent[k])
    ensures Values(input)[..|sent|] == sent && Values(input)[|sent|] == input[|sent|].value
  {
  }

  lemma PrefixFits(codec: Codec<Batch>, budget: nat, all: seq<Batch>, n: nat)
    requires n < |all| && SumOf(codec.memory, all) <= budget && SumOf(PayloadSize(codec), all) <= budget
    ensures SumOf(codec.memory, all[..n]) + codec.memory(all[n]) <= budget
    ensures SumOf(PayloadSize(codec), all[..n]) + |codec.encode(all[n])| <= budget
  {
    SumGrows(codec.memory, all, n + 1);
    SumGrows(PayloadSize(codec), all, n + 1);
    assert all[..n + 1] == all[..n] + [all[n]];
    SumNext(codec, all[..n], all[n]);
  }

  lemma BudgetHolds(codec: Codec<Batch>, sent: seq<Batch>, budget: nat)
    requires SumOf(codec.memory, sent) <= budget && SumOf(PayloadSize(codec), sent) <= budget
    ensures WithinBudget(codec, sent, budget)
  {
    forall n: nat | n <= |sent|
      ensures SumOf(codec.memory, sent[..n]) <= budget && SumOf(PayloadSize(codec), sent[..n]) <= budget
    {
      SumGrows(codec.memory, sent, n);
      SumGrows(PayloadSize(codec), sent, n);
    }
  }

  // ---- A repeated turn ----

  /** The only batch turn arrives twice, and nothing fails. */
  function DoubledTurn(bytes: nat, close: nat): nat -> Net {
    var smooth := (n: nat) => Arrival(false, Written(n), None, true, BoundInTime);
    (i: nat) => Net(if i == 0 then [Repeat(0, smooth(bytes))] else [], Acknowledged, smooth(if i == 0 then bytes else close))
  }

  lemma DoubledFits(codec: Codec<Batch>, maxBytes: nat, budget: nat, batch: Batch, bytes: nat, close: nat)
    requires FitsTurn(codec, maxBytes, batch)
    requires codec.memory(batch) <= budget <= USIZE_MAX && |codec.encode(batch)| <= budget
    ensures Fits(codec, StreamMode, maxBytes, budget, [Ok(batch)], DoubledTurn(bytes, close))
    ensures WriteSum(DoubledTurn(bytes, close), 2) == 2 * bytes + close
    ensures Values([Ok(batch)]) == [batch]
    ensures Whole([batch], DoubledTurn(bytes, close)) == [batch, batch]
  {
    var nets := DoubledTurn(bytes, close);
    SumNext(codec, [], batch);
    assert [] + [batch] == [batch];
    DoubledBytes(bytes, close);
    assert nets(0).repeats[..0] == [];
    assert Copies([batch], nets(0).repeats) == [batch];
    ArrivedNext([], batch, nets);
    assert Copies([batch], nets(1).repeats) == [];
  }

  lemma DoubledBytes(bytes: nat, close: nat)
    ensures WriteSum(DoubledTurn(bytes, close), 2) == 2 * bytes + close
  {
    var nets := DoubledTurn(bytes, close);
    assert nets(0).repeats[..0] == [];
    assert TurnBytes(nets(0)) == 2 * bytes && TurnBytes(nets(1)) == close;
    assert WriteSum(nets, 1) == WriteSum(nets, 0) + TurnBytes(nets(0));
  }

  /** A repeated turn does get through in stream mode: the client is told of success, and the statement
      is bound to the batch twice. */
  method RepeatedTurnBindsTwice(codec: Codec<Batch>, maxBytes: nat, budget: nat, batch: Batch, header: nat, bytes: nat, close: nat)
    returns (ok: bool, bound: seq<seq<Batch>>)
    requires Lossless(codec) && FitsTurn(codec, maxBytes, batch)
    requires codec.memory(batch) <= budget <= USIZE_MAX && |codec.encode(batch)| <= budget
    requires header + 2 * bytes + close <= maxBytes
    ensures ok && bound == [[batch, batch]]
  {
    var session := new BindSession(codec, StreamMode, maxBytes, Started(header));
    DoubledFits(codec, maxBytes, budget, batch, bytes, close);
    var sent;
    ok, sent := BindBatches(codec, budget, [Ok(batch)], session, DoubledTurn(bytes, close), false);
    bound := session.bound;
  }
}
