/** A response body from the Rust server to the Java client: the server's outbound pipeline
    and the client's `decodeApplicationFrame` (MoonLightClient.java). */
module Response {
  import opened Common
  import opened Wire
  import opened Frames
  import opened MetadataFormat
  import opened Compression
  import JavaMetadata
  import Outbound

  /** `available` is what the client's decoded-byte budget has left. */
  datatype Receiver = Receiver(maxMetadata: nat, zstdNegotiated: bool, options: Policy, available: nat)

  function LimitsOf(c: Receiver): Limits {
    Limits(c.maxMetadata, 64, 8 * 1024)
  }

  /** What the codec entries and the payload mean to the client. */
  function Decompressed(z: Zstd, c: Receiver, codec: Option<bytes>, length: Option<bytes>,
                        payload: bytes): Option<bytes>
  {
    if codec.None? && length.None? then Some(payload)
    else if codec.None? || |codec.value| != 1 || length.None? || |length.value| != 4 then None
    else if codec.value[0] != 1 || !c.zstdNegotiated then None
    else
      var originalLength := Number(length.value);
      if originalLength > JavaMetadata.INT_MAX then None
      else
        var decoded := Decode(z, c.options, Zstandard, payload, originalLength, c.available);
        if decoded.Err? then None else Some(decoded.value.0)
  }

  /** Specification of `decodeApplicationFrame` through the reference reading of the block. */
  function BodyOf(z: Zstd, c: Receiver, f: Frame): Option<bytes> {
    var limits := LimitsOf(c);
    if f.flags == 0 then Some(f.body)
    else if !Accepted(f.body, limits) || !JavaMetadata.NoRuntimeNames(Parse(BlockOf(f.body, limits), 0).value) then None
    else
      var m := Project(Parse(BlockOf(f.body, limits), 0).value);
      Decompressed(z, c, Lookup(m, Reserved(Outbound.CODEC)), Lookup(m, Reserved(Outbound.ORIGINAL_LENGTH)),
                   PayloadOf(f.body, limits))
  }

  method DecodeApplicationFrame(z: Zstd, c: Receiver, f: Frame) returns (r: Option<bytes>)
    requires 1 <= c.maxMetadata
    ensures r == BodyOf(z, c, f)
  {
    if f.flags == 0 {
      return Some(f.body);
    }
    var decoded := JavaMetadata.Decode(f.body, LimitsOf(c));
    if decoded.None? {
      return None;
    }
    var (metadata, payload) := decoded.value;
    return Decompressed(z, c, Lookup(metadata, Reserved(Outbound.CODEC)),
      Lookup(metadata, Reserved(Outbound.ORIGINAL_LENGTH)), payload);
  }

  /** The codec metadata the server adds reads back at the client. */
  lemma CodecMapReadBack(c: Receiver, length: nat, data: bytes)
    requires Outbound.CODEC_BLOCK_LEN <= c.maxMetadata
    ensures var body := EncodePrefix(Outbound.CodecMap(length)) + data; var limits := LimitsOf(c);
      && Canonical(Outbound.CodecMap(length)) && Accepted(body, limits)
      && JavaMetadata.NoRuntimeNames(Parse(BlockOf(body, limits), 0).value)
      && Project(Parse(BlockOf(body, limits), 0).value) == Outbound.CodecMap(length) && PayloadOf(body, limits) == data
  {
    var m, limits := Outbound.CodecMap(length), LimitsOf(c);
    Outbound.CodecMapWritten(length);
    assert WithinLimits(m, limits);
    RoundTrip(m, data, limits);
    ParseComplete(EncodeBlock(m), RawsOf(m));
  }

  lemma CodecLookups(length: nat)
    ensures var m := Outbound.CodecMap(length);
      Lookup(m, Reserved(Outbound.CODEC)) == Some([1]) &&
        Lookup(m, Reserved(Outbound.ORIGINAL_LENGTH)) == Some(BigEndian(length, 4))
  {
  }

  /** Sent compressed, and over a limit of the client's decoder. */
  predicate Undecodable(z: Zstd, cfg: Outbound.Config, c: Receiver, f: Frame) {
    && Outbound.Shrinks(z, cfg, f)
    && !Receivable(c.options, Encoded(Zstandard, |f.body|, z.compress(f.body).value), c.available)
  }

  /** Whatever the handler gave reaches the client as that very body, compressed or not, if and
      only if the server's limits let it out and the client's own decoding limits let it in;
      what the server's limits stop goes out as an error. */
  lemma ResponseRoundTrip(z: Zstd, cfg: Outbound.Config, c: Receiver, f: Frame)
    requires Inverse(z) && f.flags == 0 && |f.body| <= JavaMetadata.INT_MAX && Outbound.Compressible(f.kind)
    requires cfg.maxMetadata <= c.maxMetadata && cfg.zstd == c.zstdNegotiated
    ensures var g := Outbound.Pipeline(z, cfg, f);
      && g.methodId == f.methodId && g.requestId == f.requestId
      && (g.kind == Error <==> Outbound.Unfit(z, cfg, f))
      && (g.kind != Error ==>
           && g.kind == f.kind
           && BodyOf(z, c, g) == if Undecodable(z, cfg, c, f) then None else Some(f.body))
  {
    Outbound.PipelineCases(z, cfg, f);
    if Outbound.Shrinks(z, cfg, f) {
      var data := z.compress(f.body).value;
      CodecMapReadBack(c, |f.body|, data);
      CodecLookups(|f.body|);
      Capacities();
      NumberOfBigEndian(|f.body|, 4);
      assert Encode(z, cfg.policy, f.body, Zstandard) == Ok(Encoded(Zstandard, |f.body|, data));
      DecodeUndoesEncode(z, cfg.policy, c.options, f.body, Zstandard, c.available);
    }
  }

  /** The two codec entries are read together or not at all, and only a negotiated codec with a
      length it can decode to gives a body. */
  lemma DecompressedIff(z: Zstd, c: Receiver, codec: Option<bytes>, length: Option<bytes>, payload: bytes, body: bytes)
    ensures Decompressed(z, c, codec, length, payload) == Some(body) <==>
      || (codec == None && length == None && body == payload)
      || (&& codec == Some([1]) && c.zstdNegotiated && |body| <= JavaMetadata.INT_MAX
          && length == Some(BigEndian(|body|, 4))
          && Receivable(c.options, Encoded(Zstandard, |body|, payload), c.available)
          && z.decompress(payload, |body|) == Some(body))
  {
    Capacities();
    if length.Some? && |length.value| == 4 {
      BigEndianOfNumber(length.value);
      DecodeMeans(z, c.options, Zstandard, payload, Number(length.value), c.available, body, Number(length.value));
    }
    if |body| <= JavaMetadata.INT_MAX {
      NumberOfBigEndian(|body|, 4);
    }
    if codec.Some? && |codec.value| == 1 {
      assert codec.value == [codec.value[0]];
    }
  }
}
