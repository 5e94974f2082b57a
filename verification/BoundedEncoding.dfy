/** The bounded in-memory sink, and encoding and decoding within a limit. */
module BoundedEncoding {
  import opened Prelude
  import opened IpcFraming
  import BufferBytes

  /**
    An Arrow codec for batches, or for records kept as one-row batches. What Arrow does is abstract:
    `memory` is `get_array_memory_size`, `encode` the full IPC stream and `messages` the messages in
    it, `metadata` the flatbuffer reader, `decode` the stream reader that wants exactly one batch, and
    `columns` the arrays of what was decoded.
  */
  datatype Codec<!T> = Codec(
    memory: T -> nat,
    encode: T -> seq<Byte>,
    messages: T -> seq<Message>,
    metadata: Metadata,
    decode: seq<Byte> -> Option<T>,
    columns: T -> seq<BufferBytes.ArrayData>)

  /** The writer frames its messages as the format says, and the reader undoes the writer. */
  ghost predicate Lossless<T(!new)>(codec: Codec<T>) {
    forall value: T ::
      && AllWellFormed(codec.metadata, codec.messages(value))
      && codec.encode(value) == Emit(codec.metadata, codec.messages(value), true)
      && codec.decode(codec.encode(value)) == Some(value)
  }

  /** The deduplicated size of the decoded buffers. */
  ghost function Buffers<T>(codec: Codec<T>, value: T): nat {
    BufferBytes.SizeOf(codec.columns(value))
  }

  class BoundedBuffer {
    var bytes: seq<Byte>
    const limit: nat

    ghost predicate Valid()
      reads this
    {
      |bytes| <= limit
    }

    constructor (limit: nat)
      ensures this.limit == limit && bytes == [] && Valid()
    {
      this.limit := limit;
      bytes := [];
    }

    /** All or nothing. */
    method Write(data: seq<Byte>) returns (ok: bool)
      requires Valid()
      modifies this
      ensures Valid()
      ensures ok <==> |old(bytes)| + |data| <= limit
      ensures bytes == if ok then old(bytes) + data else old(bytes)
    {
      if |data| > SaturatingSub(limit, |bytes|) {
        return false;
      }
      bytes := bytes + data;
      return true;
    }
  }

  function Concat(chunks: seq<seq<Byte>>): seq<Byte> {
    if chunks == [] then [] else Concat(chunks[..|chunks| - 1]) + chunks[|chunks| - 1]
  }

  /** The accepted writes of a history, joined. */
  function Held(chunks: seq<seq<Byte>>, oks: seq<bool>): seq<Byte>
    requires |chunks| == |oks|
  {
    if chunks == [] then []
    else
      var n := |chunks| - 1;
      Held(chunks[..n], oks[..n]) + (if oks[n] then chunks[n] else [])
  }

  /** Write `k` was accepted exactly if it fitted behind what was accepted before. */
  ghost predicate FitsAt(limit: nat, chunks: seq<seq<Byte>>, oks: seq<bool>, k: nat)
    requires k < |oks| <= |chunks|
  {
    oks[k] <==> |Held(chunks[..k], oks[..k])| + |chunks[k]| <= limit
  }

  lemma HeldNext(limit: nat, chunks: seq<seq<Byte>>, oks: seq<bool>, ok: bool)
    requires |oks| < |chunks|
    ensures var i := |oks|;
            Held(chunks[..i + 1], oks + [ok]) == Held(chunks[..i], oks) + (if ok then chunks[i] else [])
    ensures forall k: nat | k < |oks| :: FitsAt(limit, chunks, oks + [ok], k) <==> FitsAt(limit, chunks, oks, k)
    ensures FitsAt(limit, chunks, oks + [ok], |oks|) <==>
            (ok <==> |Held(chunks[..|oks|], oks)| + |chunks[|oks|]| <= limit)
  {
    var i := |oks|;
    assert chunks[..i + 1][..i] == chunks[..i] && (oks + [ok])[..i] == oks;
    assert forall k: nat | k < i :: (oks + [ok])[..k] == oks[..k];
  }

  /** Any caller, even one that goes on after a refusal: the sink holds exactly the accepted writes. */
  method WriteEach(limit: nat, chunks: seq<seq<Byte>>) returns (oks: seq<bool>, held: seq<Byte>)
    ensures |oks| == |chunks| && |held| <= limit
    ensures held == Held(chunks, oks)
    ensures forall i: nat | i < |chunks| :: FitsAt(limit, chunks, oks, i)
  {
    var sink := new BoundedBuffer(limit);
    oks := [];
    for i := 0 to |chunks|
      invariant |oks| == i && fresh(sink) && sink.Valid() && sink.limit == limit
      invariant sink.bytes == Held(chunks[..i], oks)
      invariant forall k: nat | k < i :: FitsAt(limit, chunks, oks, k)
    {
      var ok := sink.Write(chunks[i]);
      HeldNext(limit, chunks, oks, ok);
      oks := oks + [ok];
    }
    assert chunks[..|chunks|] == chunks;
    held := sink.bytes;
  }

  lemma {:induction false} ConcatGrows(chunks: seq<seq<Byte>>, n: nat)
    requires n <= |chunks|
    ensures |Concat(chunks[..n])| <= |Concat(chunks)|
  {
    if n == |chunks| {
      assert chunks[..n] == chunks;
    } else {
      var m := |chunks| - 1;
      assert chunks[..m][..n] == chunks[..n];
      ConcatGrows(chunks[..m], n);
    }
  }

  /** The exact threshold: both the value in memory and its full stream fit. */
  function Encode<T>(codec: Codec<T>, value: T, limit: nat): Option<seq<Byte>> {
    if codec.memory(value) <= limit && |codec.encode(value)| <= limit then Some(codec.encode(value)) else None
  }

  /** `encode_batch_ipc`, for any split of the stream into writes: the writer stops at the first refusal. */
  method EncodeBatchIpc<T>(codec: Codec<T>, value: T, limit: nat, chunks: seq<seq<Byte>>)
    returns (encoded: Option<seq<Byte>>)
    requires Concat(chunks) == codec.encode(value)
    ensures encoded == Encode(codec, value, limit)
    ensures encoded.Some? <==> codec.memory(value) <= limit && |Concat(chunks)| <= limit
    ensures encoded.Some? ==> encoded.value == Concat(chunks)
  {
    if codec.memory(value) > limit {
      return None;
    }
    var sink := new BoundedBuffer(limit);
    for i := 0 to |chunks|
      invariant fresh(sink) && sink.Valid() && sink.limit == limit
      invariant sink.bytes == Concat(chunks[..i])
    {
      var ok := sink.Write(chunks[i]);
      assert chunks[..i + 1][..i] == chunks[..i];
      if !ok {
        ConcatGrows(chunks, i + 1);
        return None;
      }
    }
    assert chunks[..|chunks|] == chunks;
    encoded := Some(sink.bytes);
  }

  /** A complete stream within the limit, that holds one value whose buffers are within the limit. */
  ghost function Decode<T>(codec: Codec<T>, bytes: seq<Byte>, limit: nat): Option<T> {
    if |bytes| > limit || Check(codec.metadata, bytes) != Accepted then None
    else
      match codec.decode(bytes)
      case None => None
      case Some(value) => if Buffers(codec, value) > limit then None else Some(value)
  }

  /** `decode_batch_ipc`: the framing check, the stream reader, and the size of what was decoded. */
  method DecodeBatchIpc<T>(codec: Codec<T>, bytes: seq<Byte>, limit: nat) returns (decoded: Option<T>)
    ensures decoded == Decode(codec, bytes, limit)
  {
    var verdict := ValidateIpc(codec.metadata, bytes, limit);
    if verdict != Accepted {
      return None;
    }
    decoded := codec.decode(bytes);
    if decoded.None? {
      return None;
    }
    var size, _ := BufferBytes.BatchBufferBytes(codec.columns(decoded.value));
    if size > limit {
      return None;
    }
  }

  /** What was encoded passes the framing check. */
  lemma EncodedIsFramed<T(!new)>(codec: Codec<T>, value: T)
    requires Lossless(codec)
    ensures Check(codec.metadata, codec.encode(value)) == Accepted
    ensures codec.decode(codec.encode(value)) == Some(value)
  {
    var bytes := codec.encode(value);
    assert bytes == Emit(codec.metadata, codec.messages(value), true);
    CheckOfEmit(codec.metadata, codec.messages(value), true, []);
    assert bytes + [] == bytes;
  }

  /** What was encoded decodes to the same value or not at all, and the condition is exact. */
  lemma EncodedDecodes<T(!new)>(codec: Codec<T>, value: T, sent: nat, received: nat)
    requires Lossless(codec) && Encode(codec, value, sent).Some?
    ensures var bytes := Encode(codec, value, sent).value;
            Decode(codec, bytes, received) ==
            if |bytes| <= received && Buffers(codec, value) <= received then Some(value) else None
  {
    EncodedIsFramed(codec, value);
  }

  /** Nothing decodes that was cut short or has anything behind it. */
  lemma OnlyWholeStreamsDecode<T(!new)>(codec: Codec<T>, value: T, n: nat, more: seq<Byte>, limit: nat)
    requires Lossless(codec) && n <= |codec.encode(value)|
    ensures n < |codec.encode(value)| ==> Decode(codec, codec.encode(value)[..n], limit).None?
    ensures more != [] ==> Decode(codec, codec.encode(value) + more, limit).None?
  {
    var bytes := codec.encode(value);
    EncodedIsFramed(codec, value);
    PrefixFree(codec.metadata, bytes, more);
    assert bytes[..n] + bytes[n..] == bytes;
    if Check(codec.metadata, bytes[..n]) == Accepted {
      PrefixFree(codec.metadata, bytes[..n], bytes[n..]);
    }
  }

  /** `bounded_response`: the record is encoded, wrapped as the single cell of an envelope batch, and
      the envelope must encode within the same limit. */
  function BoundedResponse(codec: Codec<Batch>, wrap: seq<Byte> -> Batch, record: Batch, limit: nat): Option<Batch> {
    match Encode(codec, record, limit)
    case None => None
    case Some(bytes) => if Encode(codec, wrap(bytes), limit).Some? then Some(wrap(bytes)) else None
  }

  /** A response is given exactly if the record and its envelope both fit, in memory and encoded, and it is that envelope. */
  lemma BoundedResponseIff(codec: Codec<Batch>, wrap: seq<Byte> -> Batch, record: Batch, limit: nat)
    ensures var envelope := wrap(codec.encode(record));
            BoundedResponse(codec, wrap, record, limit) ==
            if && codec.memory(record) <= limit && |codec.encode(record)| <= limit
               && codec.memory(envelope) <= limit && |codec.encode(envelope)| <= limit
            then Some(envelope) else None
  {
  }
}
