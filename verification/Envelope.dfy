/** The value envelope (envelope.go): magic, deadline, codec name, payload. */
module Envelope {
  import opened Bytes

  const MAGIC: bytes := ['K' as int, 'V' as int, 'L' as int, '1' as int]
  const HEADER_SIZE: nat := 14

  datatype Env = Env(expiresAt: int64, codec: bytes, payload: bytes)

  predicate Expired(e: Env, now: int) {
    e.expiresAt > 0 && now >= e.expiresAt
  }

  /** marshalEnvelope fails only when the codec name is longer than 65535 bytes. */
  function Marshal(e: Env): (r: Option<bytes>)
    ensures r.Some? <==> |e.codec| <= 65535
  {
    if |e.codec| > 65535 then None
    else Some(MAGIC + Word64(e.expiresAt) + BigEndian(|e.codec|, 2) + e.codec + e.payload)
  }

  function Unmarshal(data: bytes): Option<Env> {
    if |data| < HEADER_SIZE || data[..4] != MAGIC then None
    else
      Widths();
      var codecLength := FromBigEndian(data[12..14]);
      if |data| < HEADER_SIZE + codecLength then None
      else Some(Env(FromWord64(data[4..12]), data[14..14 + codecLength], data[14 + codecLength..]))
  }

  /** RecordExpired, the compaction hook every driver receives. */
  predicate EnvelopeExpired(data: bytes, now: int) {
    var e := Unmarshal(data);
    e.Some? && Expired(e.value, now)
  }

  /** marshalEnvelope copies each region into one buffer at computed offsets. */
  method FillEnvelope(e: Env) returns (r: Option<array<byte>>)
    ensures r.None? <==> Marshal(e).None?
    ensures r.Some? ==> fresh(r.value) && Marshal(e) == Some(r.value[..])
  {
    var n := |e.codec|;
    if n > 65535 { return None; }
    var result := new byte[HEADER_SIZE + n + |e.payload|];
    forall i | 0 <= i < 4 { result[i] := MAGIC[i]; }
    var deadline := Word64(e.expiresAt);
    forall i | 0 <= i < 8 { result[4 + i] := deadline[i]; }
    var length := BigEndian(n, 2);
    forall i | 0 <= i < 2 { result[12 + i] := length[i]; }
    forall i | 0 <= i < n { result[14 + i] := e.codec[i]; }
    forall i | 0 <= i < |e.payload| { result[14 + n + i] := e.payload[i]; }
    assert result[..] == MAGIC + deadline + length + e.codec + e.payload;
    return Some(result);
  }

  lemma MarshalRoundTrip(e: Env)
    requires |e.codec| <= 65535
    ensures Unmarshal(Marshal(e).value) == Some(e)
  {
    Widths();
    var data := Marshal(e).value;
    assert data[4..12] == Word64(e.expiresAt);
    assert data[12..14] == BigEndian(|e.codec|, 2);
    Word64RoundTrip(e.expiresAt);
    BigEndianRoundTrip(|e.codec|, 2);
    assert data[14..14 + |e.codec|] == e.codec;
    assert data[14 + |e.codec|..] == e.payload;
  }

  /** Every accepted byte string is the encoding of what it decodes to. */
  lemma UnmarshalRoundTrip(data: bytes)
    requires Unmarshal(data).Some?
    ensures Marshal(Unmarshal(data).value) == Some(data)
  {
    Widths();
    FromWord64RoundTrip(data[4..12]);
    FromBigEndianRoundTrip(data[12..14]);
    var e := Unmarshal(data).value;
    assert data == data[..4] + data[4..12] + data[12..14] + data[14..14 + |e.codec|] + data[14 + |e.codec|..];
  }
}
