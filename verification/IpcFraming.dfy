/**
  `validate_ipc`: the byte-level framing check that runs before Arrow decoding,
  following the encapsulated message format and the IPC streaming format of the
  Apache Arrow columnar format. The flatbuffer metadata is an uninterpreted
  function from metadata bytes to the declared body length.
*/
module IpcFraming {
  import opened Prelude

  /** `root_as_message(..).bodyLength()`: nothing if the flatbuffer is invalid. */
  type Metadata = seq<Byte> -> Option<int>

  datatype Verdict =
    | Accepted
    | TooLarge
    | TruncatedPrefix
    | TruncatedContinuation
    | TrailingBytes
    | BadMetadataLength
    | TruncatedMetadata
    | BadMetadata
    | BadBodyLength
    | TruncatedBody

  // ---- 32-bit little-endian words ----

  const TWO_31: int := 0x8000_0000
  const TWO_32: int := 0x1_0000_0000

  function FromLe(b: seq<Byte>): (n: int)
    requires |b| == 4
    ensures -TWO_31 <= n < TWO_31
  {
    var u := b[0] as int + 0x100 * (b[1] as int) + 0x1_0000 * (b[2] as int) + 0x100_0000 * (b[3] as int);
    if u < TWO_31 then u else u - TWO_32
  }

  function ToLe(n: int): (b: seq<Byte>)
    requires -TWO_31 <= n < TWO_31
    ensures |b| == 4 && FromLe(b) == n
  {
    var u := if n < 0 then n + TWO_32 else n;
    var b0, r0 := u % 0x100, u / 0x100;
    var b1, r1 := r0 % 0x100, r0 / 0x100;
    var b2, b3 := r1 % 0x100, r1 / 0x100;
    [b0, b1, b2, b3]
  }

  lemma LeInjective(a: seq<Byte>, b: seq<Byte>)
    requires |a| == 4 && |b| == 4 && FromLe(a) == FromLe(b)
    ensures a == b
  {
    var a0, a1, a2, a3 := a[0] as int, a[1] as int, a[2] as int, a[3] as int;
    var b0, b1, b2, b3 := b[0] as int, b[1] as int, b[2] as int, b[3] as int;
    LowDigit(a0, a1 + 0x100 * (a2 + 0x100 * a3), b0, b1 + 0x100 * (b2 + 0x100 * b3));
    LowDigit(a1, a2 + 0x100 * a3, b1, b2 + 0x100 * b3);
    LowDigit(a2, a3, b2, b3);
  }

  /** The bytes of a word: least significant first, the last one signed. */
  lemma LittleEndian(b: seq<Byte>)
    requires |b| == 4
    ensures FromLe(b) % 0x100 == b[0]
    ensures var low, high: int := 0x100 * (0x100 * (b[2] as int) + b[1] as int) + b[0] as int, b[3];
            FromLe(b) == low + 0x100_0000 * (if high < 0x80 then high else high - 0x100)
  {
  }

  /** The four bytes of a length, by division. */
  function LengthBytes(n: nat): seq<Byte>
    requires n < TWO_31
  {
    [n % 0x100, n / 0x100 % 0x100, n / 0x1_0000 % 0x100, n / 0x100_0000]
  }

  lemma LengthBytesRead(n: nat)
    requires n < TWO_31
    ensures FromLe(LengthBytes(n)) == n && ToLe(n) == LengthBytes(n)
  {
    LittleEndian(LengthBytes(n));
    var m, l := n / 0x100, n / 0x1_0000;
    assert l == m / 0x100 && n / 0x100_0000 == l / 0x100;
    LeInjective(LengthBytes(n), ToLe(n));
  }

  lemma LowDigit(a: int, restA: int, b: int, restB: int)
    requires 0 <= a < 0x100 && 0 <= b < 0x100 && a + 0x100 * restA == b + 0x100 * restB
    ensures a == b && restA == restB
  {
  }

  // ---- The grammar ----

  /** One encapsulated message; `marked` says whether the 0xFFFFFFFF continuation marker precedes it. */
  datatype Message = Message(marked: bool, metadata: seq<Byte>, body: seq<Byte>)

  ghost predicate WellFormed(meta: Metadata, m: Message) {
    0 < |m.metadata| < TWO_31 && meta(m.metadata) == Some(|m.body|)
  }

  function Marker(marked: bool): seq<Byte> {
    if marked then ToLe(-1) else []
  }

  function Frame(m: Message): seq<Byte>
    requires |m.metadata| < TWO_31
  {
    Marker(m.marked) + ToLe(|m.metadata|) + m.metadata + m.body
  }

  ghost predicate AllWellFormed(meta: Metadata, ms: seq<Message>) {
    forall i | 0 <= i < |ms| :: WellFormed(meta, ms[i])
  }

  /** The framing writer: the messages, then one end marker. */
  ghost function Emit(meta: Metadata, ms: seq<Message>, markedEnd: bool): seq<Byte>
    requires AllWellFormed(meta, ms)
  {
    if ms == [] then Marker(markedEnd) + ToLe(0)
    else
      assert WellFormed(meta, ms[0]);
      Frame(ms[0]) + Emit(meta, ms[1..], markedEnd)
  }

  // ---- The check, one frame at a time ----

  /** What follows the length prefix (and continuation marker) of one frame, at `offset`. */
  datatype Header = Header(length: int, offset: nat) | Cut(verdict: Verdict)

  function ReadHeader(bytes: seq<Byte>): (h: Header)
    ensures h.Header? ==> 4 <= h.offset <= |bytes|
  {
    if |bytes| < 4 then Cut(TruncatedPrefix)
    else if FromLe(bytes[..4]) != -1 then Header(FromLe(bytes[..4]), 4)
    else if |bytes| < 8 then Cut(TruncatedContinuation)
    else Header(FromLe(bytes[4..8]), 8)
  }

  /** The verdict on a byte string; the code computes it in one pass over offsets. */
  function Check(meta: Metadata, bytes: seq<Byte>): Verdict
    decreases |bytes|
  {
    var h := ReadHeader(bytes);
    if h.Cut? then h.verdict
    else if h.length == 0 then
      if h.offset == |bytes| then Accepted else TrailingBytes
    else if h.length < 0 then BadMetadataLength
    else
      var end := h.offset + h.length;
      if end > |bytes| then TruncatedMetadata
      else
        var declared := meta(bytes[h.offset..end]);
        if declared.None? then BadMetadata
        else if declared.value < 0 then BadBodyLength
        else if end + declared.value > |bytes| then TruncatedBody
        else Check(meta, bytes[end + declared.value..])
  }

  lemma SliceOfTail(bytes: seq<Byte>, offset: nat, a: nat, b: nat)
    requires a <= b && offset + b <= |bytes|
    ensures bytes[offset..][a..b] == bytes[offset + a..offset + b]
    ensures bytes[offset..][b..] == bytes[offset + b..]
  {
  }

  lemma HeaderAt(bytes: seq<Byte>, offset: nat)
    requires offset <= |bytes|
    ensures var h := ReadHeader(bytes[offset..]);
            if offset + 4 > |bytes| then h == Cut(TruncatedPrefix)
            else
              var first := FromLe(bytes[offset..offset + 4]);
              if first != -1 then h == Header(first, 4)
              else if offset + 8 > |bytes| then h == Cut(TruncatedContinuation)
              else h == Header(FromLe(bytes[offset + 4..offset + 8]), 8)
  {
    if offset + 4 <= |bytes| {
      SliceOfTail(bytes, offset, 0, 4);
      assert bytes[offset..][..4] == bytes[offset..][0..4];
      if offset + 8 <= |bytes| {
        SliceOfTail(bytes, offset, 4, 8);
      }
    }
  }

  /** One unfolding of `Check`, in offsets of the whole string. */
  lemma CheckAt(meta: Metadata, bytes: seq<Byte>, offset: nat)
    requires offset <= |bytes| && ReadHeader(bytes[offset..]).Header?
    ensures var h := ReadHeader(bytes[offset..]);
            var start := offset + h.offset;
            Check(meta, bytes[offset..]) ==
            if h.length == 0 then (if start == |bytes| then Accepted else TrailingBytes)
            else if h.length < 0 then BadMetadataLength
            else if start + h.length > |bytes| then TruncatedMetadata
            else
              var declared := meta(bytes[start..start + h.length]);
              if declared.None? then BadMetadata
              else if declared.value < 0 then BadBodyLength
              else if start + h.length + declared.value > |bytes| then TruncatedBody
              else Check(meta, bytes[start + h.length + declared.value..])
  {
    var h := ReadHeader(bytes[offset..]);
    var start := offset + h.offset;
    if h.length > 0 && start + h.length <= |bytes| {
      SliceOfTail(bytes, offset, h.offset, h.offset + h.length);
      var declared := meta(bytes[start..start + h.length]);
      if declared.Some? && declared.value >= 0 && start + h.length + declared.value <= |bytes| {
        SliceOfTail(bytes, offset, 0, h.offset + h.length + declared.value);
      }
    }
  }

  /** The length prefix of the frame at `offset`, behind its continuation marker if it has one. */
  method ReadLength(bytes: seq<Byte>, offset: nat) returns (h: Header)
    requires offset <= |bytes|
    ensures h == ReadHeader(bytes[offset..])
  {
    HeaderAt(bytes, offset);
    if offset + 4 > |bytes| {
      return Cut(TruncatedPrefix);
    }
    var length := FromLe(bytes[offset..offset + 4]);
    if length != -1 {
      return Header(length, 4);
    }
    if offset + 8 > |bytes| {
      return Cut(TruncatedContinuation);
    }
    length := FromLe(bytes[offset + 4..offset + 8]);
    return Header(length, 8);
  }

  /** One pass of the loop: a verdict, or the offset of the next frame. */
  datatype Scan = Stop(verdict: Verdict) | Go(next: nat)

  method ScanFrame(meta: Metadata, bytes: seq<Byte>, start: nat) returns (scan: Scan)
    requires start <= |bytes|
    ensures scan.Stop? ==> Check(meta, bytes[start..]) == scan.verdict
    ensures scan.Go? ==> start < scan.next <= |bytes| && Check(meta, bytes[start..]) == Check(meta, bytes[scan.next..])
  {
    var h := ReadLength(bytes, start);
    if h.Cut? {
      return Stop(h.verdict);
    }
    CheckAt(meta, bytes, start);
    var offset := start + h.offset;
    if h.length == 0 {
      return Stop(if offset == |bytes| then Accepted else TrailingBytes);
    }
    if h.length < 0 {
      return Stop(BadMetadataLength);
    }
    var end := offset + h.length;
    if end > |bytes| {
      return Stop(TruncatedMetadata);
    }
    var declared := meta(bytes[offset..end]);
    if declared.None? {
      return Stop(BadMetadata);
    }
    if declared.value < 0 {
      return Stop(BadBodyLength);
    }
    if end + declared.value > |bytes| {
      return Stop(TruncatedBody);
    }
    return Go(end + declared.value);
  }

  /** `validate_ipc`: the loop over offsets, all slices in bounds. */
  method ValidateIpc(meta: Metadata, bytes: seq<Byte>, limit: nat) returns (verdict: Verdict)
    ensures verdict == if |bytes| > limit then TooLarge else Check(meta, bytes)
  {
    if |bytes| > limit {
      return TooLarge;
    }
    var offset := 0;
    assert bytes[0..] == bytes;
    while true
      invariant 0 <= offset <= |bytes|
      invariant Check(meta, bytes) == Check(meta, bytes[offset..])
      decreases |bytes| - offset
    {
      var scan := ScanFrame(meta, bytes, offset);
      if scan.Stop? {
        return scan.verdict;
      }
      offset := scan.next;
    }
  }

  // ---- Exactly the grammar ----

  lemma ReadsMarker(marked: bool, n: int, rest: seq<Byte>)
    requires -1 < n < TWO_31
    ensures var bytes := Marker(marked) + ToLe(n) + rest;
            && ReadHeader(bytes) == Header(n, if marked then 8 else 4)
            && bytes[if marked then 8 else 4..] == rest
  {
    var bytes := Marker(marked) + ToLe(n) + rest;
    if marked {
      assert bytes[..4] == ToLe(-1) && bytes[4..8] == ToLe(n);
    } else {
      assert bytes[..4] == ToLe(n);
    }
  }

  /** One well-formed frame is consumed whole and nothing behind it matters. */
  lemma CheckSkipsFrame(meta: Metadata, m: Message, rest: seq<Byte>)
    requires WellFormed(meta, m)
    ensures Check(meta, Frame(m) + rest) == Check(meta, rest)
  {
    var tail := m.metadata + m.body + rest;
    var bytes := Frame(m) + rest;
    FrameThen(m, rest);
    ReadsMarker(m.marked, |m.metadata|, tail);
    var start := if m.marked then 8 else 4;
    var end := start + |m.metadata|;
    assert bytes[start..end] == bytes[start..][..|m.metadata|] == m.metadata;
    assert bytes[end + |m.body|..] == bytes[start..][|m.metadata| + |m.body|..] == rest;
  }

  /** A written stream is accepted whole; anything behind its end marker is reported as trailing. */
  lemma {:induction false} CheckOfEmit(meta: Metadata, ms: seq<Message>, markedEnd: bool, more: seq<Byte>)
    requires AllWellFormed(meta, ms)
    ensures Check(meta, Emit(meta, ms, markedEnd) + more) == if more == [] then Accepted else TrailingBytes
  {
    if ms == [] {
      ReadsMarker(markedEnd, 0, more);
    } else {
      assert WellFormed(meta, ms[0]);
      var rest := Emit(meta, ms[1..], markedEnd);
      CheckOfEmit(meta, ms[1..], markedEnd, more);
      CheckSkipsFrame(meta, ms[0], rest + more);
      assert Frame(ms[0]) + rest + more == Frame(ms[0]) + (rest + more);
    }
  }

  lemma HeaderBytes(bytes: seq<Byte>)
    requires ReadHeader(bytes).Header? && ReadHeader(bytes).length >= 0
    ensures var h := ReadHeader(bytes);
            bytes == Marker(h.offset == 8) + ToLe(h.length) + bytes[h.offset..]
  {
    var h := ReadHeader(bytes);
    if h.offset == 8 {
      LeInjective(bytes[..4], ToLe(-1));
      LeInjective(bytes[4..8], ToLe(h.length));
      assert bytes == bytes[..4] + bytes[4..8] + bytes[8..];
    } else {
      LeInjective(bytes[..4], ToLe(h.length));
      assert bytes == bytes[..4] + bytes[4..];
    }
  }

  /** An accepted string that does not start with the end marker starts with a well-formed frame. */
  lemma FirstFrame(meta: Metadata, bytes: seq<Byte>) returns (m: Message, rest: seq<Byte>)
    requires Check(meta, bytes) == Accepted && ReadHeader(bytes).length != 0
    ensures WellFormed(meta, m) && bytes == Frame(m) + rest
    ensures Check(meta, rest) == Accepted && |rest| < |bytes|
  {
    var h := ReadHeader(bytes);
    HeaderBytes(bytes);
    var end := h.offset + h.length;
    var metadata := bytes[h.offset..end];
    var stop := end + meta(metadata).value;
    m := Message(h.offset == 8, metadata, bytes[end..stop]);
    rest := bytes[stop..];
    SliceInThree(bytes, h.offset, end, stop);
    FrameThen(m, rest);
  }

  lemma SliceInThree(bytes: seq<Byte>, start: nat, end: nat, stop: nat)
    requires start <= end <= stop <= |bytes|
    ensures bytes[start..] == bytes[start..end] + bytes[end..stop] + bytes[stop..]
  {
  }

  lemma FrameThen(m: Message, rest: seq<Byte>)
    requires |m.metadata| < TWO_31
    ensures Frame(m) + rest == Marker(m.marked) + ToLe(|m.metadata|) + (m.metadata + m.body + rest)
  {
  }

  /** Everything accepted is an output of the framing writer. */
  lemma {:induction false} AcceptedIsWritten(meta: Metadata, bytes: seq<Byte>) returns (ms: seq<Message>, markedEnd: bool)
    requires Check(meta, bytes) == Accepted
    ensures AllWellFormed(meta, ms) && bytes == Emit(meta, ms, markedEnd)
    decreases |bytes|
  {
    var h := ReadHeader(bytes);
    if h.length == 0 {
      HeaderBytes(bytes);
      ms, markedEnd := [], h.offset == 8;
      assert bytes[h.offset..] == [];
    } else {
      var m, rest := FirstFrame(meta, bytes);
      var tail;
      tail, markedEnd := AcceptedIsWritten(meta, rest);
      ms := [m] + tail;
      assert ms[1..] == tail;
    }
  }

  /** `validate_ipc` accepts exactly the complete streams: messages, one end marker, nothing behind it. */
  lemma AcceptsExactlyStreams(meta: Metadata, bytes: seq<Byte>)
    ensures Check(meta, bytes) == Accepted <==>
            exists ms: seq<Message>, markedEnd: bool ::
              AllWellFormed(meta, ms) && bytes == Emit(meta, ms, markedEnd)
  {
    if Check(meta, bytes) == Accepted {
      var ms, markedEnd := AcceptedIsWritten(meta, bytes);
    }
    forall ms: seq<Message>, markedEnd: bool | AllWellFormed(meta, ms) && bytes == Emit(meta, ms, markedEnd)
      ensures Check(meta, bytes) == Accepted
    {
      CheckOfEmit(meta, ms, markedEnd, []);
      assert bytes + [] == bytes;
    }
  }

  /** The accepted set is prefix-free. */
  lemma PrefixFree(meta: Metadata, bytes: seq<Byte>, more: seq<Byte>)
    requires Check(meta, bytes) == Accepted
    ensures Check(meta, bytes + more) == if more == [] then Accepted else TrailingBytes
  {
    var ms, markedEnd := AcceptedIsWritten(meta, bytes);
    CheckOfEmit(meta, ms, markedEnd, more);
  }

  lemma FrameHeader(m: Message, rest: seq<Byte>)
    requires 0 < |m.metadata| < TWO_31
    ensures var start := if m.marked then 8 else 4;
            && ReadHeader(Frame(m) + rest) == Header(|m.metadata|, start)
            && (Frame(m) + rest)[start..] == m.metadata + m.body + rest
  {
    var tail := m.metadata + m.body + rest;
    FrameThen(m, rest);
    ReadsMarker(m.marked, |m.metadata|, tail);
  }

  lemma FrameSplitsOneWay(meta: Metadata, a: Message, restA: seq<Byte>, b: Message, restB: seq<Byte>)
    requires WellFormed(meta, a) && WellFormed(meta, b)
    requires Frame(a) + restA == Frame(b) + restB
    ensures a == b && restA == restB
  {
    FrameHeader(a, restA);
    FrameHeader(b, restB);
    var tail := a.metadata + a.body + restA;
    assert tail == b.metadata + b.body + restB;
    var n := |a.metadata|;
    assert a.metadata == tail[..n] == b.metadata;
    assert a.body == tail[n..n + |a.body|] == b.body;
    assert restA == tail[n + |a.body|..] == restB;
  }

  /** Framing is unambiguous: one byte string has one list of messages and one kind of end marker. */
  lemma {:induction false} FramingInjective(meta: Metadata, a: seq<Message>, endA: bool, b: seq<Message>, endB: bool)
    requires AllWellFormed(meta, a) && AllWellFormed(meta, b)
    requires Emit(meta, a, endA) == Emit(meta, b, endB)
    ensures a == b && endA == endB
  {
    if a != [] && b != [] {
      assert WellFormed(meta, a[0]) && WellFormed(meta, b[0]);
      FrameSplitsOneWay(meta, a[0], Emit(meta, a[1..], endA), b[0], Emit(meta, b[1..], endB));
      FramingInjective(meta, a[1..], endA, b[1..], endB);
      assert a == [a[0]] + a[1..] && b == [b[0]] + b[1..];
    } else {
      EmitHeader(meta, a, endA);
      EmitHeader(meta, b, endB);
    }
  }

  lemma EmitHeader(meta: Metadata, ms: seq<Message>, markedEnd: bool)
    requires AllWellFormed(meta, ms)
    ensures var h := ReadHeader(Emit(meta, ms, markedEnd));
            h.Header? && (h.length == 0 <==> ms == []) && (ms == [] ==> h.offset == if markedEnd then 8 else 4)
  {
    if ms == [] {
      assert Marker(markedEnd) + ToLe(0) + [] == Marker(markedEnd) + ToLe(0);
      ReadsMarker(markedEnd, 0, []);
    } else {
      assert WellFormed(meta, ms[0]);
      FrameHeader(ms[0], Emit(meta, ms[1..], markedEnd));
    }
  }

  // ---- The bytes themselves ----

  const CONTINUATION: seq<Byte> := [0xFF, 0xFF, 0xFF, 0xFF]

  lemma MarkerBytes()
    ensures ToLe(-1) == CONTINUATION && ToLe(0) == [0, 0, 0, 0]
  {
    LittleEndian(CONTINUATION);
    LeInjective(ToLe(-1), CONTINUATION);
    LittleEndian([0, 0, 0, 0]);
    LeInjective(ToLe(0), [0, 0, 0, 0]);
  }

  /** Four bytes that spell n, least significant first, are read as length n, with or without the marker before them. */
  lemma LengthIsRead(n: nat, rest: seq<Byte>)
    requires n < TWO_31
    ensures ReadHeader(LengthBytes(n) + rest) == Header(n, 4)
    ensures ReadHeader(CONTINUATION + LengthBytes(n) + rest) == Header(n, 8)
  {
    LengthBytesRead(n);
    MarkerBytes();
    ReadsMarker(false, n, rest);
    ReadsMarker(true, n, rest);
    assert [] + ToLe(n) + rest == LengthBytes(n) + rest;
  }

  /** A stream of one message in the current format, byte by byte: it is accepted. */
  lemma OneMessageAccepted(meta: Metadata, metadata: seq<Byte>, body: seq<Byte>)
    requires 0 < |metadata| < TWO_31 && meta(metadata) == Some(|body|)
    ensures Check(meta, CONTINUATION + LengthBytes(|metadata|) + metadata + body + (CONTINUATION + [0, 0, 0, 0])) == Accepted
  {
    var m := Message(true, metadata, body);
    var end := CONTINUATION + [0, 0, 0, 0];
    LengthBytesRead(|metadata|);
    MarkerBytes();
    assert Frame(m) == CONTINUATION + LengthBytes(|metadata|) + metadata + body;
    CheckSkipsFrame(meta, m, end);
    EndAccepted(meta, true);
  }

  lemma EndAccepted(meta: Metadata, marked: bool)
    ensures Check(meta, Marker(marked) + ToLe(0)) == Accepted
  {
    CheckOfEmit(meta, [], marked, []);
    assert Marker(marked) + ToLe(0) + [] == Marker(marked) + ToLe(0);
  }

  /** The rejections, each by the bytes that bring it about; by `CheckSkipsFrame` also behind any messages. */
  lemma HeaderRejections(meta: Metadata, bytes: seq<Byte>)
    ensures |bytes| < 4 ==> Check(meta, bytes) == TruncatedPrefix
    ensures 4 <= |bytes| < 8 && bytes[..4] == CONTINUATION ==> Check(meta, bytes) == TruncatedContinuation
    ensures |bytes| >= 4 && bytes[3] >= 0x80 && bytes[..4] != CONTINUATION ==> Check(meta, bytes) == BadMetadataLength
    ensures |bytes| >= 8 && bytes[..4] == CONTINUATION && bytes[7] >= 0x80 ==> Check(meta, bytes) == BadMetadataLength
  {
    LittleEndian(CONTINUATION);
    if |bytes| >= 4 {
      LittleEndian(bytes[..4]);
      if FromLe(bytes[..4]) == -1 {
        LeInjective(bytes[..4], CONTINUATION);
      }
    }
    if |bytes| >= 8 {
      LittleEndian(bytes[4..8]);
    }
  }

  /** A length that promises more metadata than there is. */
  lemma MetadataTruncated(meta: Metadata, marked: bool, n: nat, rest: seq<Byte>)
    requires |rest| < n < TWO_31
    ensures Check(meta, Marker(marked) + ToLe(n) + rest) == TruncatedMetadata
  {
    ReadsMarker(marked, n, rest);
  }

  lemma MetadataIsRead(marked: bool, metadata: seq<Byte>, rest: seq<Byte>)
    requires 0 < |metadata| < TWO_31
    ensures var bytes := Marker(marked) + ToLe(|metadata|) + (metadata + rest);
            var start := if marked then 8 else 4;
            && ReadHeader(bytes) == Header(|metadata|, start)
            && |bytes| == start + |metadata| + |rest|
            && bytes[start..start + |metadata|] == metadata
  {
    var start := if marked then 8 else 4;
    var bytes := Marker(marked) + ToLe(|metadata|) + (metadata + rest);
    ReadsMarker(marked, |metadata|, metadata + rest);
    SliceOfTail(bytes, start, 0, |metadata|);
    assert (metadata + rest)[0..|metadata|] == metadata;
  }

  /** What `Check` says behind a good length, up to the body. */
  lemma CheckMetadata(meta: Metadata, bytes: seq<Byte>, start: nat, n: nat)
    requires 0 < n && ReadHeader(bytes) == Header(n, start) && start + n <= |bytes|
    ensures var declared := meta(bytes[start..start + n]);
            && (declared.None? ==> Check(meta, bytes) == BadMetadata)
            && (declared.Some? && declared.value < 0 ==> Check(meta, bytes) == BadBodyLength)
            && (declared.Some? && declared.value > |bytes| - start - n ==> Check(meta, bytes) == TruncatedBody)
  {
  }

  /** Metadata that cannot be read, or that declares an impossible body. */
  lemma MetadataRejections(meta: Metadata, marked: bool, metadata: seq<Byte>, rest: seq<Byte>, bytes: seq<Byte>)
    requires 0 < |metadata| < TWO_31 && bytes == Marker(marked) + ToLe(|metadata|) + (metadata + rest)
    ensures match meta(metadata)
            case None => Check(meta, bytes) == BadMetadata
            case Some(body) =>
              (body < 0 ==> Check(meta, bytes) == BadBodyLength) && (body > |rest| ==> Check(meta, bytes) == TruncatedBody)
  {
    MetadataIsRead(marked, metadata, rest);
    CheckMetadata(meta, bytes, if marked then 8 else 4, |metadata|);
  }
}
