/**
  Signed partition descriptors: sealing, opening, and the response budget loop of
  partitioned execution. The keyed hash (HMAC, section 2 of RFC 2104) and the
  claims record codec are uninterpreted functions.
*/
module PartitionTokens {
  import opened Prelude
  import opened BoundedEncoding

  type Bytes = seq<Byte>

  const I64_MAX: int := 0x7FFF_FFFF_FFFF_FFFF
  const MAGIC: Bytes := [0x47, 0x4C, 0x50, 0x32]   // "GLP2"
  const HEADER: nat := 36
  const BYTES_OVERHEAD: nat := 24                  // size of one Bytes value in the response vector

  datatype Claims = Claims(version: int, expiresAtMs: int, owner: Bytes, descriptor: Bytes)

  /** Claims travel as a one-row record. */
  type ClaimsCodec = Codec<Claims>

  datatype Signer = Signer(mac: Bytes -> Bytes, ttlMs: nat)

  ghost predicate Sound(signer: Signer, codec: ClaimsCodec) {
    && (forall m: Bytes :: |signer.mac(m)| == 32)
    && Lossless(codec)
  }

  // ---- Ownership ----

  function HexDigit(n: int): Byte
    requires 0 <= n < 16
  {
    if n < 10 then 0x30 + n else 0x61 + n - 10
  }

  function Hex(bytes: Bytes): Bytes {
    if bytes == [] then [] else [HexDigit(bytes[0] / 16), HexDigit(bytes[0] % 16)] + Hex(bytes[1..])
  }

  function Preimage(target: Bytes, principal: Bytes): Bytes {
    target + [0] + principal
  }

  function Owner(signer: Signer, target: Bytes, principal: Bytes): Bytes {
    Hex(signer.mac(Preimage(target, principal)))
  }

  /** `validate_text`: request text carries no NUL. */
  predicate NulFree(text: Bytes) {
    forall i | 0 <= i < |text| :: text[i] != 0
  }

  /** The separator is unambiguous for validated targets, although principals contain NULs. */
  lemma PreimageInjective(t: Bytes, p: Bytes, u: Bytes, q: Bytes)
    requires NulFree(t) && NulFree(u) && Preimage(t, p) == Preimage(u, q)
    ensures t == u && p == q
  {
    var s := Preimage(t, p);
    assert s[|t|] == 0 && s[|u|] == 0;
    assert t == s[..|t|] && u == s[..|u|];
    assert p == s[|t| + 1..] && q == s[|u| + 1..];
  }

  lemma {:induction false} HexInjective(a: Bytes, b: Bytes)
    requires Hex(a) == Hex(b)
    ensures a == b
  {
    if a == [] || b == [] {
      assert |Hex(a)| == 0 <==> a == [];
      assert |Hex(b)| == 0 <==> b == [];
    } else {
      assert Hex(a)[0] == HexDigit(a[0] / 16) && Hex(a)[1] == HexDigit(a[0] % 16);
      assert Hex(b)[0] == HexDigit(b[0] / 16) && Hex(b)[1] == HexDigit(b[0] % 16);
      assert a[0] == b[0];
      assert Hex(a)[2..] == Hex(a[1..]) && Hex(b)[2..] == Hex(b[1..]);
      HexInjective(a[1..], b[1..]);
      assert a == [a[0]] + a[1..] && b == [b[0]] + b[1..];
    }
  }

  /** The hexadecimal digits, in ASCII. */
  const DIGITS: Bytes := [0x30, 0x31, 0x32, 0x33, 0x34, 0x35, 0x36, 0x37, 0x38, 0x39, 0x61, 0x62, 0x63, 0x64, 0x65, 0x66]

  /** Two lower-case digits per byte, the high half first. */
  lemma {:induction false} HexText(bytes: Bytes, i: nat)
    requires i < |bytes|
    ensures |Hex(bytes)| == 2 * |bytes|
    ensures Hex(bytes)[2 * i] == DIGITS[bytes[i] / 16] && Hex(bytes)[2 * i + 1] == DIGITS[bytes[i] % 16]
  {
    if i > 0 {
      HexText(bytes[1..], i - 1);
    } else if |bytes| > 1 {
      HexText(bytes[1..], 0);
    }
  }

  // ---- Seal and open ----

  function Expiry(signer: Signer, nowMs: int): Option<int> {
    if signer.ttlMs > I64_MAX || nowMs + signer.ttlMs > I64_MAX then None else Some(nowMs + signer.ttlMs)
  }

  function ClaimsFor(signer: Signer, nowMs: int, target: Bytes, principal: Bytes, descriptor: Bytes): Claims {
    Claims(1, nowMs + signer.ttlMs, Owner(signer, target, principal), descriptor)
  }

  function Token(signer: Signer, payload: Bytes): Bytes {
    MAGIC + signer.mac(payload) + payload
  }

  function Seal(signer: Signer, codec: ClaimsCodec, nowMs: int, target: Bytes, principal: Bytes,
                descriptor: Bytes, limit: nat): Option<Bytes> {
    if Expiry(signer, nowMs).None? then None
    else
      var claims := ClaimsFor(signer, nowMs, target, principal, descriptor);
      match Encode(codec, claims, SaturatingSub(limit, HEADER))
      case None => None
      case Some(payload) => Some(Token(signer, payload))
  }

  ghost function Open(signer: Signer, codec: ClaimsCodec, nowMs: int, target: Bytes, principal: Bytes,
                token: Bytes, limit: nat): Option<Bytes> {
    if |token| < HEADER || |token| > limit || token[..4] != MAGIC then None
    else if signer.mac(token[HEADER..]) != token[4..HEADER] then None
    else
      match Decode(codec, token[HEADER..], limit - HEADER)
      case None => None
      case Some(claims) =>
        if claims.version != 1 || claims.expiresAtMs <= nowMs || claims.owner != Owner(signer, target, principal) then None
        else Some(claims.descriptor)
  }

  lemma TokenParts(signer: Signer, payload: Bytes)
    requires |signer.mac(payload)| == 32
    ensures var token := Token(signer, payload);
            && |token| == HEADER + |payload|
            && token[..4] == MAGIC && token[4..HEADER] == signer.mac(payload) && token[HEADER..] == payload
  {
  }

  /**
    Round trip, exactly: a sealed token opens to its own descriptor if and only if it is presented
    before expiry, with room for it, and by somebody with the same owner hash.
  */
  lemma SealedTokenOpens(signer: Signer, codec: ClaimsCodec, sealedAt: int, target: Bytes, principal: Bytes,
                         descriptor: Bytes, limit: nat, nowMs: int, target': Bytes, principal': Bytes, limit': nat)
    requires Sound(signer, codec)
    requires Seal(signer, codec, sealedAt, target, principal, descriptor, limit).Some?
    ensures var token := Seal(signer, codec, sealedAt, target, principal, descriptor, limit).value;
            var claims := ClaimsFor(signer, sealedAt, target, principal, descriptor);
            Open(signer, codec, nowMs, target', principal', token, limit') ==
            if && |token| <= limit' && Buffers(codec, claims) <= limit' - HEADER
               && nowMs < sealedAt + signer.ttlMs
               && signer.mac(Preimage(target, principal)) == signer.mac(Preimage(target', principal'))
            then Some(descriptor) else None
  {
    var claims := ClaimsFor(signer, sealedAt, target, principal, descriptor);
    var payload := codec.encode(claims);
    assert |signer.mac(payload)| == 32;
    TokenParts(signer, payload);
    var room := SaturatingSub(limit, HEADER);
    if |payload| + HEADER <= limit' {
      EncodedDecodes(codec, claims, room, limit' - HEADER);
    }
    if Owner(signer, target, principal) == Owner(signer, target', principal') {
      HexInjective(signer.mac(Preimage(target, principal)), signer.mac(Preimage(target', principal')));
    }
  }

  /** Where the keyed hash separates the two owners' preimages, only the owner opens the token. */
  lemma OnlyOwnerOpens(signer: Signer, codec: ClaimsCodec, sealedAt: int, target: Bytes, principal: Bytes,
                       descriptor: Bytes, limit: nat, nowMs: int, target': Bytes, principal': Bytes, limit': nat)
    requires Sound(signer, codec)
    requires Seal(signer, codec, sealedAt, target, principal, descriptor, limit).Some?
    requires NulFree(target) && NulFree(target')
    requires signer.mac(Preimage(target, principal)) == signer.mac(Preimage(target', principal')) ==>
               Preimage(target, principal) == Preimage(target', principal')
    ensures var token := Seal(signer, codec, sealedAt, target, principal, descriptor, limit).value;
            Open(signer, codec, nowMs, target', principal', token, limit').Some? ==>
              target' == target && principal' == principal
  {
    SealedTokenOpens(signer, codec, sealedAt, target, principal, descriptor, limit, nowMs, target', principal', limit');
    if Preimage(target, principal) == Preimage(target', principal') {
      PreimageInjective(target, principal, target', principal');
    }
  }

  /** Sealing succeeds exactly if the expiry is a 64-bit time and the claims fit behind the 36-byte header. */
  lemma SealIff(signer: Signer, codec: ClaimsCodec, nowMs: int, target: Bytes, principal: Bytes, descriptor: Bytes, limit: nat)
    ensures var claims := Claims(1, nowMs + signer.ttlMs, Owner(signer, target, principal), descriptor);
            var room := if limit < 36 then 0 else limit - 36;
            Seal(signer, codec, nowMs, target, principal, descriptor, limit).Some? <==>
              && signer.ttlMs <= 9_223_372_036_854_775_807 && nowMs + signer.ttlMs <= 9_223_372_036_854_775_807
              && codec.memory(claims) <= room && |codec.encode(claims)| <= room
  {
  }

  /** `token` carries `payload` under its own tag, and `payload` holds `claims` that admit this bearer now. */
  ghost predicate Authentic(signer: Signer, codec: ClaimsCodec, nowMs: int, target: Bytes, principal: Bytes,
                            token: Bytes, limit: nat, payload: Bytes, claims: Claims) {
    && token == [0x47, 0x4C, 0x50, 0x32] + signer.mac(payload) + payload
    && 36 <= |token| <= limit
    && Decode(codec, payload, limit - 36) == Some(claims)
    && claims.version == 1 && nowMs < claims.expiresAtMs
    && claims.owner == Hex(signer.mac(target + [0] + principal))
  }

  /**
    Any byte string whatsoever: it opens if and only if it is the magic, the tag of its payload and the
    payload, and the payload decodes within the limit to unexpired claims of version 1 for this owner;
    the answer is their descriptor.
  */
  lemma OpenIff(signer: Signer, codec: ClaimsCodec, nowMs: int, target: Bytes, principal: Bytes,
                token: Bytes, limit: nat, descriptor: Bytes)
    requires forall m: Bytes :: |signer.mac(m)| == 32
    ensures Open(signer, codec, nowMs, target, principal, token, limit) == Some(descriptor) <==>
            exists payload: Bytes, claims: Claims ::
              Authentic(signer, codec, nowMs, target, principal, token, limit, payload, claims) && claims.descriptor == descriptor
  {
    if Open(signer, codec, nowMs, target, principal, token, limit) == Some(descriptor) {
      var payload := token[HEADER..];
      assert token == token[..4] + token[4..HEADER] + payload;
      var claims := Decode(codec, payload, limit - HEADER).value;
      assert Authentic(signer, codec, nowMs, target, principal, token, limit, payload, claims);
    }
    forall payload: Bytes, claims: Claims |
      Authentic(signer, codec, nowMs, target, principal, token, limit, payload, claims) && claims.descriptor == descriptor
      ensures Open(signer, codec, nowMs, target, principal, token, limit) == Some(descriptor)
    {
      assert |signer.mac(payload)| == 32;
      TokenParts(signer, payload);
    }
  }

  /** A payload opens under no other 36 bytes than the magic and its own tag. */
  lemma TamperedTokenFails(signer: Signer, codec: ClaimsCodec, nowMs: int, target: Bytes, principal: Bytes,
                           header: Bytes, payload: Bytes, limit: nat)
    requires |header| == 36 && header != MAGIC + signer.mac(payload)
    ensures Open(signer, codec, nowMs, target, principal, header + payload, limit) == None
  {
    var token := header + payload;
    assert token[HEADER..] == payload && token[..4] == header[..4] && token[4..HEADER] == header[4..];
    assert header == header[..4] + header[4..];
  }

  /** In particular another payload does not open under the tag of the first, wherever the hash separates the two. */
  lemma AlteredPayloadFails(signer: Signer, codec: ClaimsCodec, nowMs: int, target: Bytes, principal: Bytes,
                            payload: Bytes, altered: Bytes, limit: nat)
    requires |signer.mac(payload)| == 32 && signer.mac(altered) != signer.mac(payload)
    ensures Open(signer, codec, nowMs, target, principal, MAGIC + signer.mac(payload) + altered, limit) == None
  {
    var header := MAGIC + signer.mac(payload);
    assert header[4..] == signer.mac(payload) && (MAGIC + signer.mac(altered))[4..] == signer.mac(altered);
    TamperedTokenFails(signer, codec, nowMs, target, principal, header, altered, limit);
  }

  // ---- The response budget ----

  function Spent(tokens: seq<Bytes>): nat {
    if tokens == [] then 0 else Spent(tokens[..|tokens| - 1]) + |tokens[|tokens| - 1]| + BYTES_OVERHEAD
  }

  /** What one descriptor can cost at most: its record counts in memory and encoded, whichever is more. */
  function Cost(signer: Signer, codec: ClaimsCodec, nowMs: int, target: Bytes, principal: Bytes, descriptor: Bytes): nat {
    var claims := ClaimsFor(signer, nowMs, target, principal, descriptor);
    HEADER + BYTES_OVERHEAD + Max(codec.memory(claims), |codec.encode(claims)|)
  }

  ghost function TotalCost(signer: Signer, codec: ClaimsCodec, clock: nat -> int, target: Bytes, principal: Bytes,
                           descriptors: seq<Bytes>): nat {
    if descriptors == [] then 0
    else
      var n := |descriptors| - 1;
      TotalCost(signer, codec, clock, target, principal, descriptors[..n])
      + Cost(signer, codec, clock(n), target, principal, descriptors[n])
  }

  lemma {:induction false} CostGrows(signer: Signer, codec: ClaimsCodec, clock: nat -> int, target: Bytes, principal: Bytes,
                  descriptors: seq<Bytes>, n: nat)
    requires n <= |descriptors|
    ensures TotalCost(signer, codec, clock, target, principal, descriptors[..n])
            <= TotalCost(signer, codec, clock, target, principal, descriptors)
  {
    if n == |descriptors| {
      assert descriptors[..n] == descriptors;
    } else {
      var m := |descriptors| - 1;
      assert descriptors[..m][..n] == descriptors[..n];
      CostGrows(signer, codec, clock, target, principal, descriptors[..m], n);
    }
  }

  lemma CostNext(signer: Signer, codec: ClaimsCodec, clock: nat -> int, target: Bytes, principal: Bytes,
                 descriptors: seq<Bytes>, n: nat)
    requires n < |descriptors|
    ensures TotalCost(signer, codec, clock, target, principal, descriptors[..n + 1])
            == TotalCost(signer, codec, clock, target, principal, descriptors[..n])
               + Cost(signer, codec, clock(n), target, principal, descriptors[n])
            <= TotalCost(signer, codec, clock, target, principal, descriptors)
  {
    CostGrows(signer, codec, clock, target, principal, descriptors, n + 1);
    assert descriptors[..n + 1][..n] == descriptors[..n];
  }

  lemma SpentNext(tokens: seq<Bytes>, token: Bytes)
    ensures Spent(tokens + [token]) == Spent(tokens) + |token| + BYTES_OVERHEAD
  {
    assert (tokens + [token])[..|tokens|] == tokens;
  }

  /** The token opens, for its owner and before it expires, to its descriptor and to nothing else. */
  ghost predicate OpensTo(signer: Signer, codec: ClaimsCodec, sealedAt: int, target: Bytes, principal: Bytes,
                          token: Bytes, descriptor: Bytes) {
    forall nowMs: int, limit: nat ::
      Open(signer, codec, nowMs, target, principal, token, limit) ==
      if && |token| <= limit
         && Buffers(codec, ClaimsFor(signer, sealedAt, target, principal, descriptor)) <= limit - HEADER
         && nowMs < sealedAt + signer.ttlMs
      then Some(descriptor) else None
  }

  /** So does every token of a list that may still be growing. */
  ghost predicate AllOpen(signer: Signer, codec: ClaimsCodec, clock: nat -> int, target: Bytes, principal: Bytes,
                          tokens: seq<Bytes>, descriptors: seq<Bytes>) {
    && |tokens| <= |descriptors|
    && forall i: nat | i < |tokens| :: OpensTo(signer, codec, clock(i), target, principal, tokens[i], descriptors[i])
  }

  lemma AllOpenNext(signer: Signer, codec: ClaimsCodec, clock: nat -> int, target: Bytes, principal: Bytes,
                    tokens: seq<Bytes>, token: Bytes, descriptors: seq<Bytes>)
    requires AllOpen(signer, codec, clock, target, principal, tokens, descriptors) && |tokens| < |descriptors|
    requires OpensTo(signer, codec, clock(|tokens|), target, principal, token, descriptors[|tokens|])
    ensures AllOpen(signer, codec, clock, target, principal, tokens + [token], descriptors)
  {
  }

  /** One pass of the loop: a token that fits what is left, its overhead included. */
  method SealNext(signer: Signer, codec: ClaimsCodec, nowMs: int, target: Bytes, principal: Bytes,
                  descriptor: Bytes, remaining: nat)
    returns (token: Option<Bytes>)
    requires Sound(signer, codec)
    ensures token.Some? ==>
              && |token.value| + BYTES_OVERHEAD <= Min(remaining, Cost(signer, codec, nowMs, target, principal, descriptor))
              && OpensTo(signer, codec, nowMs, target, principal, token.value, descriptor)
    ensures Expiry(signer, nowMs).Some? && Cost(signer, codec, nowMs, target, principal, descriptor) <= remaining ==>
              token.Some?
  {
    token := Seal(signer, codec, nowMs, target, principal, descriptor, remaining);
    if token.Some? {
      SealedSize(signer, codec, nowMs, target, principal, descriptor, remaining);
      if |token.value| + BYTES_OVERHEAD > remaining {
        token := None;
      }
    }
  }

  /** EXECUTE_PARTITIONS: seal every descriptor within what is left of the response limit. */
  method SealPartitions(signer: Signer, codec: ClaimsCodec, clock: nat -> int, target: Bytes, principal: Bytes,
                        schemaSize: nat, descriptors: seq<Bytes>, limit: nat)
    returns (result: Option<seq<Bytes>>)
    requires Sound(signer, codec)
    ensures result.Some? ==>
              && |result.value| == |descriptors|
              && schemaSize + Spent(result.value) <= limit
              && AllOpen(signer, codec, clock, target, principal, result.value, descriptors)
    ensures (forall i: nat | i < |descriptors| :: Expiry(signer, clock(i)).Some?)
            && schemaSize + TotalCost(signer, codec, clock, target, principal, descriptors) <= limit ==>
              result.Some?
  {
    if limit < schemaSize {
      return None;
    }
    var remaining := limit - schemaSize;
    var tokens: seq<Bytes> := [];
    for i := 0 to |descriptors|
      invariant |tokens| == i
      invariant remaining >= 0 && schemaSize + Spent(tokens) + remaining == limit
      invariant Spent(tokens) <= TotalCost(signer, codec, clock, target, principal, descriptors[..i])
      invariant AllOpen(signer, codec, clock, target, principal, tokens, descriptors)
    {
      CostNext(signer, codec, clock, target, principal, descriptors, i);
      var token := SealNext(signer, codec, clock(i), target, principal, descriptors[i], remaining);
      if token.None? {
        return None;
      }
      remaining := remaining - (|token.value| + BYTES_OVERHEAD);
      SpentNext(tokens, token.value);
      AllOpenNext(signer, codec, clock, target, principal, tokens, token.value, descriptors);
      tokens := tokens + [token.value];
    }
    assert descriptors[..|descriptors|] == descriptors;
    result := Some(tokens);
  }

  lemma SealedSize(signer: Signer, codec: ClaimsCodec, nowMs: int, target: Bytes, principal: Bytes,
                   descriptor: Bytes, limit: nat)
    requires Sound(signer, codec)
    requires Seal(signer, codec, nowMs, target, principal, descriptor, limit).Some?
    ensures var token := Seal(signer, codec, nowMs, target, principal, descriptor, limit).value;
            && |token| + BYTES_OVERHEAD <= Cost(signer, codec, nowMs, target, principal, descriptor)
            && |token| <= Max(limit, HEADER)
            && OpensTo(signer, codec, nowMs, target, principal, token, descriptor)
  {
    var claims := ClaimsFor(signer, nowMs, target, principal, descriptor);
    assert |signer.mac(codec.encode(claims))| == 32;
    TokenParts(signer, codec.encode(claims));
    forall later: int, room: nat {
      SealedTokenOpens(signer, codec, nowMs, target, principal, descriptor, limit, later, target, principal, room);
    }
  }

  /** The whole handler: the sealed tokens go into one record that must itself fit the limit. */
  method ExecutePartitions(signer: Signer, codec: ClaimsCodec, clock: nat -> int, target: Bytes, principal: Bytes,
                           schemaSize: nat, descriptors: seq<Bytes>, limit: nat, rowsAffected: int,
                           batches: Codec<Batch>, wrap: Bytes -> Batch, record: seq<Bytes> -> Batch)
    returns (response: Option<Batch>, tokens: seq<Bytes>)
    requires Sound(signer, codec)
    ensures response.Some? ==>
              && rowsAffected >= -1
              && |tokens| == |descriptors|
              && schemaSize + Spent(tokens) <= limit
              && AllOpen(signer, codec, clock, target, principal, tokens, descriptors)
              && response == Some(wrap(batches.encode(record(tokens))))
              && |batches.encode(record(tokens))| <= limit && |batches.encode(response.value)| <= limit
    ensures (forall i: nat | i < |descriptors| :: Expiry(signer, clock(i)).Some?)
            && schemaSize + TotalCost(signer, codec, clock, target, principal, descriptors) <= limit ==>
              (response.None? <==> rowsAffected < -1 || BoundedResponse(batches, wrap, record(tokens), limit).None?)
  {
    var sealed := SealPartitions(signer, codec, clock, target, principal, schemaSize, descriptors, limit);
    if sealed.None? {
      return None, [];
    }
    tokens := sealed.value;
    if rowsAffected < -1 {
      return None, tokens;
    }
    response := BoundedResponse(batches, wrap, record(tokens), limit);
  }
}
