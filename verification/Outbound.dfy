/** What the server does to a frame before it writes it: `fit_outbound_frame`,
    `compress_outbound_frame` and `fit_outbound_frame` again
    (crates/moonlight-bridge-server/src/lib.rs). A frame the writer defers goes through this
    twice, so the question is when the second pass changes nothing. */
module Outbound {
  import opened Common
  import opened Wire
  import opened Frames
  import opened MetadataFormat
  import RustMetadata
  import opened Compression

  /** What was negotiated; the policy's decoded limit is the connection's. */
  datatype Config = Config(zstd: bool, policy: Policy, maxMetadata: nat, maxBody: nat)

  const RESOURCE_EXHAUSTED: nat := 5
  const COMPRESSION_FAILURE: nat := 10
  const CODEC: int := 6
  const ORIGINAL_LENGTH: int := 7

  function Ascii(s: string): (r: bytes)
    ensures |r| == |s|
  {
    seq(|s|, i requires 0 <= i < |s| => (s[i] as int) % 256)
  }

  /** `ErrorCode::encode`. */
  function ErrorBody(code: nat, message: string): (r: bytes)
    ensures |r| == 2 + |message|
  {
    BigEndian(code, 2) + Ascii(message)
  }

  function Fit(f: Frame, maxBody: nat): Frame {
    if |f.body| <= maxBody then f
    else f.(kind := Error, flags := 0, body := if maxBody >= 2 then ErrorBody(RESOURCE_EXHAUSTED, "") else [])
  }

  predicate Compressible(kind: Kind) {
    kind == Response || kind == Event || kind == StreamItem
  }

  function LimitsOf(cfg: Config): Limits {
    Limits(cfg.maxMetadata, 64, 8 * 1024)
  }

  function CodecEntry(): Entry {
    Entry(Reserved(CODEC), [1])
  }

  function LengthEntry(length: nat): Entry {
    Entry(Reserved(ORIGINAL_LENGTH), BigEndian(length, 4))
  }

  /** The two `insert_reserved` calls. */
  function AddCodec(m: seq<Entry>, length: nat): Option<seq<Entry>> {
    var once := RustMetadata.Insert(m, CodecEntry());
    if once.None? then None else RustMetadata.Insert(once.value, LengthEntry(length))
  }

  lemma AddCodecCanonical(m: seq<Entry>, length: nat)
    requires Canonical(m)
    ensures AddCodec(m, length).Some? ==> Canonical(AddCodec(m, length).value)
  {
    RustMetadata.InsertMeans(m, CodecEntry());
    var once := RustMetadata.Insert(m, CodecEntry());
    if once.Some? {
      RustMetadata.InsertMeans(once.value, LengthEntry(length));
    }
  }

  function Failed(f: Frame, message: string): Frame {
    f.(kind := Error, flags := 0, body := ErrorBody(COMPRESSION_FAILURE, message))
  }

  /** The metadata and payload of a frame; none if its metadata does not decode. */
  function Split(cfg: Config, f: Frame): (r: Option<(seq<Entry>, bytes)>)
    ensures r.Some? ==> Canonical(r.value.0)
  {
    var limits := LimitsOf(cfg);
    if f.flags == 0 then Some(([], f.body))
    else if !Accepted(f.body, limits) then None
    else
      var raws := Parse(BlockOf(f.body, limits), 0).value;
      ProjectCanonical(raws);
      Some((Project(raws), PayloadOf(f.body, limits)))
  }

  function Assemble(cfg: Config, f: Frame, m: seq<Entry>, data: bytes): Frame
    requires Canonical(m)
  {
    if m == [] then f.(flags := 0, body := data)
    else if |EncodeBlock(m)| > U32_MAX || |EncodeBlock(m)| > cfg.maxMetadata then
      Failed(f, "response metadata too large")
    else f.(flags := FLAG_HAS_METADATA, body := EncodePrefix(m) + data)
  }

  function CompressFrame(z: Zstd, cfg: Config, f: Frame): Frame {
    if !cfg.zstd || !Compressible(f.kind) then f
    else
      var parts := Split(cfg, f);
      if parts.None? then f
      else
        var (m, payload) := parts.value;
        var e := Encode(z, cfg.policy, payload, Zstandard);
        if e.Err? then Failed(f, "response compression failed")
        else if e.value.codec == Plain then Assemble(cfg, f, m, e.value.data)
        else
          AddCodecCanonical(m, |payload|);
          var more := AddCodec(m, |payload|);
          if more.None? then Failed(f, "response metadata conflict") else Assemble(cfg, f, more.value, e.value.data)
  }

  function Pipeline(z: Zstd, cfg: Config, f: Frame): Frame {
    Fit(CompressFrame(z, cfg, Fit(f, cfg.policy.maxDecoded)), cfg.maxBody)
  }

  /** Every frame comes out readable for the peer and keeps its addressee. */
  lemma PipelineReadable(z: Zstd, cfg: Config, f: Frame)
    requires Sound(f) && cfg.maxBody <= U32_MAX
    ensures var g := Pipeline(z, cfg, f);
      && Readable(g, cfg.maxBody) && g.methodId == f.methodId && g.requestId == f.requestId
      && (g.kind == f.kind || g.kind == Error)
  {
    var f1 := Fit(f, cfg.policy.maxDecoded);
    CompressKeeps(z, cfg, f1);
  }

  lemma CompressKeeps(z: Zstd, cfg: Config, f: Frame)
    requires Sound(f)
    ensures Keeps(f, CompressFrame(z, cfg, f))
  {
    forall m, data | Canonical(m) ensures Keeps(f, Assemble(cfg, f, m, data)) {
      AssembleKeeps(cfg, f, m, data);
    }
  }

  /** Sound, with the same ids, and of the same kind unless it is an error. */
  predicate Keeps(f: Frame, g: Frame) {
    Sound(g) && g.methodId == f.methodId && g.requestId == f.requestId && (g.kind == f.kind || g.kind == Error)
  }

  lemma AssembleKeeps(cfg: Config, f: Frame, m: seq<Entry>, data: bytes)
    requires Sound(f) && Canonical(m)
    ensures Keeps(f, Assemble(cfg, f, m, data))
  {
  }

  // ---------------------------------------------------------------------------
  // What comes out of a frame without metadata, as the server queues them

  const CODEC_BLOCK_LEN: nat := 19
  const CODEC_PREFIX_LEN: nat := 23

  function CodecMap(length: nat): seq<Entry> {
    [CodecEntry(), LengthEntry(length)]
  }

  lemma CodecMapAdded(length: nat)
    ensures AddCodec([], length) == Some(CodecMap(length))
  {
    var c, l := CodecEntry(), LengthEntry(length);
    assert RustMetadata.Insert([], c) == Some([c] + []);
    assert [c] + [] == [c] && [c][1..] == [];
    assert RustMetadata.Insert([c], l) == Some([c] + ([l] + []));
    assert [c] + ([l] + []) == CodecMap(length);
  }

  lemma CodecMapWritten(length: nat)
    ensures Writable(CodecMap(length))
    ensures |EncodeBlock(CodecMap(length))| == CODEC_BLOCK_LEN && |EncodePrefix(CodecMap(length))| == CODEC_PREFIX_LEN
  {
    var m := CodecMap(length);
    assert RawsOf(m) == [RawOf(m[0]), RawOf(m[1])];
    var tail := [RawOf(m[1])];
    assert RawsOf(m)[1..] == tail && tail[1..] == [];
    assert EncodeRaws(tail) == EncodeRaw(RawOf(m[1])) + EncodeRaws([]);
  }

  /** The frames that carry an application's bytes: no other is ever compressed. */
  const APPLICATION_KINDS := {Response, Event, StreamItem}

  /** The policy wants the body compressed. */
  predicate Chosen(z: Zstd, cfg: Config, f: Frame) {
    && cfg.zstd && f.kind in APPLICATION_KINDS && |f.body| <= cfg.policy.maxDecoded
    && ValidPolicy(cfg.policy) && |f.body| >= cfg.policy.minPayload
    && z.compress(f.body).Some? && Worthwhile(cfg.policy, f.body, z.compress(f.body).value)
  }

  /** The policy cannot be applied to the body. */
  predicate CannotCompress(z: Zstd, cfg: Config, f: Frame) {
    && cfg.zstd && f.kind in APPLICATION_KINDS && |f.body| <= cfg.policy.maxDecoded
    && (!ValidPolicy(cfg.policy) || (|f.body| >= cfg.policy.minPayload && z.compress(f.body).None?))
  }

  /** The frame is replaced by an error: a caller can tell from the frame and the limits. */
  predicate Unfit(z: Zstd, cfg: Config, f: Frame) {
    || |f.body| > cfg.policy.maxDecoded
    || CannotCompress(z, cfg, f)
    || if Chosen(z, cfg, f) then
         CODEC_BLOCK_LEN > cfg.maxMetadata || CODEC_PREFIX_LEN + |z.compress(f.body).value| > cfg.maxBody
       else |f.body| > cfg.maxBody
  }

  /** The frame is sent compressed. */
  predicate Shrinks(z: Zstd, cfg: Config, f: Frame) {
    Chosen(z, cfg, f) && !Unfit(z, cfg, f)
  }

  /** A frame whose metadata cannot be read is left alone; otherwise a frame that does not turn
      into an error keeps its metadata and payload, or adds the codec to the one and compresses
      the other. */
  lemma CompressKeepsMetadata(z: Zstd, cfg: Config, f: Frame)
    requires f.flags == FLAG_HAS_METADATA
    ensures !Accepted(f.body, LimitsOf(cfg)) ==> CompressFrame(z, cfg, f) == f
    ensures cfg.zstd && f.kind in APPLICATION_KINDS && Accepted(f.body, LimitsOf(cfg)) ==>
      var g, (m, payload) := CompressFrame(z, cfg, f), Split(cfg, f).value;
      || g.kind == Error
      || (m == [] && g == f.(flags := 0, body := payload))
      || (g == f.(body := EncodePrefix(m) + payload))
      || (&& AddCodec(m, |payload|).Some? && Canonical(AddCodec(m, |payload|).value) && z.compress(payload).Some?
          && g == f.(body := EncodePrefix(AddCodec(m, |payload|).value) + z.compress(payload).value))
  {
    if Split(cfg, f).Some? {
      var (m, payload) := Split(cfg, f).value;
      EncodeMeans(z, cfg.policy, payload, Zstandard);
      AddCodecCanonical(m, |payload|);
    }
  }

  /** An error body that has to fit the frame limit itself. */
  function Cut(body: bytes, maxBody: nat): bytes {
    if |body| <= maxBody then body else if maxBody >= 2 then ErrorBody(RESOURCE_EXHAUSTED, "") else []
  }

  /** Why a frame is replaced by an error, as far as the error still fits. */
  function Reason(z: Zstd, cfg: Config, f: Frame): bytes {
    if |f.body| > cfg.policy.maxDecoded then Cut(Cut(f.body, cfg.policy.maxDecoded), cfg.maxBody)
    else if CannotCompress(z, cfg, f) then
      Cut(ErrorBody(COMPRESSION_FAILURE, "response compression failed"), cfg.maxBody)
    else if Chosen(z, cfg, f) && CODEC_BLOCK_LEN > cfg.maxMetadata then
      Cut(ErrorBody(COMPRESSION_FAILURE, "response metadata too large"), cfg.maxBody)
    else if cfg.maxBody >= 2 then ErrorBody(RESOURCE_EXHAUSTED, "")
    else []
  }

  lemma UnfitSaysWhy(z: Zstd, cfg: Config, f: Frame)
    requires f.flags == 0 && Unfit(z, cfg, f)
    ensures Pipeline(z, cfg, f) == f.(kind := Error, body := Reason(z, cfg, f))
  {
    CodecMapWritten(|f.body|);
    CodecMapAdded(|f.body|);
    if |f.body| <= cfg.policy.maxDecoded && cfg.zstd && Compressible(f.kind) {
      assert Split(cfg, f) == Some(([], f.body));
      assert f.(flags := 0, body := f.body) == f;
    }
  }

  /** What becomes of a frame without metadata: an error, its compressed form, or itself. */
  lemma PipelineCases(z: Zstd, cfg: Config, f: Frame)
    requires f.flags == 0
    ensures var g := Pipeline(z, cfg, f);
      && (Unfit(z, cfg, f) ==> g == f.(kind := Error, body := g.body))
      && (Shrinks(z, cfg, f) ==>
            g == f.(flags := FLAG_HAS_METADATA, body := EncodePrefix(CodecMap(|f.body|)) + z.compress(f.body).value))
      && (!Unfit(z, cfg, f) && !Shrinks(z, cfg, f) ==> g == f && CompressFrame(z, cfg, f) == f)
  {
    CodecMapWritten(|f.body|);
    CodecMapAdded(|f.body|);
    var f1 := Fit(f, cfg.policy.maxDecoded);
    if |f.body| <= cfg.policy.maxDecoded && cfg.zstd && Compressible(f.kind) {
      assert Split(cfg, f) == Some(([], f.body));
      assert f.(flags := 0, body := f.body) == f;
    }
  }

  /** Compressing the compressed data again would not pay. */
  predicate StaysPlain(z: Zstd, policy: Policy, data: bytes) {
    var e := Encode(z, policy, data, Zstandard);
    e.Ok? && e.value.codec == Plain
  }

  predicate Settled(z: Zstd, cfg: Config, f: Frame) {
    && |Pipeline(z, cfg, f).body| <= cfg.policy.maxDecoded
    && (Shrinks(z, cfg, f) ==> StaysPlain(z, cfg.policy, z.compress(f.body).value))
  }

  lemma CodecPayload(cfg: Config, f: Frame, length: nat, data: bytes)
    requires f.flags == FLAG_HAS_METADATA && f.body == EncodePrefix(CodecMap(length)) + data
    requires CODEC_BLOCK_LEN <= cfg.maxMetadata
    ensures Split(cfg, f) == Some((CodecMap(length), data))
  {
    CodecMapWritten(length);
    assert WithinLimits(CodecMap(length), LimitsOf(cfg));
    RoundTrip(CodecMap(length), data, LimitsOf(cfg));
  }

  /** The second pass over a compressed frame. */
  lemma CompressAgain(z: Zstd, cfg: Config, g: Frame, length: nat, data: bytes)
    requires g.flags == FLAG_HAS_METADATA && g.body == EncodePrefix(CodecMap(length)) + data
    requires cfg.zstd && Compressible(g.kind) && CODEC_BLOCK_LEN <= cfg.maxMetadata
    ensures CompressFrame(z, cfg, g) ==
      if StaysPlain(z, cfg.policy, data) then g
      else if Encode(z, cfg.policy, data, Zstandard).Err? then Failed(g, "response compression failed")
      else Failed(g, "response metadata conflict")
  {
    CodecPayload(cfg, g, length, data);
    CodecMapWritten(length);
    AddCodecRefused(length, |data|);
    if StaysPlain(z, cfg.policy, data) {
      assert g.(flags := FLAG_HAS_METADATA, body := EncodePrefix(CodecMap(length)) + data) == g;
    }
  }

  lemma AddCodecRefused(length: nat, other: nat)
    ensures AddCodec(CodecMap(length), other) == None
  {
  }

  /** Passing a frame through the pipeline twice is the same as once, if and only if what
      came out the first time is within the decoded limit and, where it is compressed, not
      worth compressing again. */
  lemma PipelineIdempotentIff(z: Zstd, cfg: Config, f: Frame)
    requires f.flags == 0
    ensures Pipeline(z, cfg, Pipeline(z, cfg, f)) == Pipeline(z, cfg, f) <==> Settled(z, cfg, f)
  {
    var g := Pipeline(z, cfg, f);
    PipelineCases(z, cfg, f);
    if |g.body| > cfg.policy.maxDecoded {
      TooLargeChanges(z, cfg, g);
    } else if Shrinks(z, cfg, f) {
      CompressAgain(z, cfg, g, |f.body|, z.compress(f.body).value);
    }
  }

  lemma TooLargeChanges(z: Zstd, cfg: Config, g: Frame)
    requires |g.body| > cfg.policy.maxDecoded && |g.body| <= cfg.maxBody
    ensures Pipeline(z, cfg, g) != g
  {
  }

  /** Under a policy that asks for at least the 23 bytes the codec metadata takes, the first
      clause holds of itself once the decoded limit leaves room for an error message. */
  lemma SettledUnderSavings(z: Zstd, cfg: Config, f: Frame)
    requires f.flags == 0 && cfg.policy.minSavings >= CODEC_PREFIX_LEN && cfg.policy.maxDecoded >= 29
    ensures Settled(z, cfg, f) <==> (Shrinks(z, cfg, f) ==> StaysPlain(z, cfg.policy, z.compress(f.body).value))
  {
    PipelineSize(z, cfg, f);
  }

  lemma PipelineSize(z: Zstd, cfg: Config, f: Frame)
    requires f.flags == 0
    ensures var g := Pipeline(z, cfg, f);
      if Shrinks(z, cfg, f) then |g.body| == CODEC_PREFIX_LEN + |z.compress(f.body).value| else g == f || |g.body| <= 29
    ensures |f.body| <= cfg.policy.maxDecoded || |Pipeline(z, cfg, f).body| <= 2
  {
    PipelineCases(z, cfg, f);
    CodecMapWritten(|f.body|);
  }

  // ---------------------------------------------------------------------------
  // A response that is compressed twice is lost

  function Zeros(n: nat): bytes {
    seq(n, _ => 0)
  }

  /** A codec that undoes itself and shrinks two particular inputs. */
  function HalvingZstd(): Zstd {
    Zstd(x => Some(if x == Zeros(4096) then Zeros(2048) else if x == Zeros(2048) then Zeros(1024) else [1] + x),
         (s, _) =>
           if s == Zeros(2048) then Some(Zeros(4096))
           else if s == Zeros(1024) then Some(Zeros(2048))
           else if s != [] && s[0] == 1 then Some(s[1..])
           else None)
  }

  /** A compressed response that is put aside reaches the client as an error, if and only if
      it is not settled. */
  lemma UnsettledIsLost(z: Zstd, cfg: Config, f: Frame)
    requires f.flags == 0 && Shrinks(z, cfg, f)
    ensures Pipeline(z, cfg, f).kind == f.kind != Error
    ensures Pipeline(z, cfg, Pipeline(z, cfg, f)).kind == Error <==> !Settled(z, cfg, f)
  {
    var g := Pipeline(z, cfg, f);
    PipelineCases(z, cfg, f);
    if |g.body| <= cfg.policy.maxDecoded {
      CompressAgain(z, cfg, g, |f.body|, z.compress(f.body).value);
    }
  }

  const EXAMPLE_CONFIG := Config(true, DEFAULT_POLICY, 16 * 1024, 1024 * 1024)

  function ExampleResponse(): Frame {
    Frame(Response, 0, 1, 1, Zeros(4096))
  }

  /** With a codec whose output shrinks again there is a response that two passes turn into an
      error, although decompression undoes compression. */
  lemma TwoPassesCanLoseResponse()
    ensures var z, f := HalvingZstd(), ExampleResponse();
      && Inverse(z) && Shrinks(z, EXAMPLE_CONFIG, f)
      && |Pipeline(z, EXAMPLE_CONFIG, f).body| == CODEC_PREFIX_LEN + 2048
      && Pipeline(z, EXAMPLE_CONFIG, f).kind == Response
      && Pipeline(z, EXAMPLE_CONFIG, Pipeline(z, EXAMPLE_CONFIG, f)).kind == Error
  {
    HalvingUndoes();
    ExampleShrinks();
    ExampleUnsettled();
    UnsettledIsLost(HalvingZstd(), EXAMPLE_CONFIG, ExampleResponse());
  }

  lemma ExampleShrinks()
    ensures var z, f := HalvingZstd(), ExampleResponse();
      && Shrinks(z, EXAMPLE_CONFIG, f)
      && |Pipeline(z, EXAMPLE_CONFIG, f).body| == CODEC_PREFIX_LEN + 2048
  {
    Halves();
    assert Shrinks(HalvingZstd(), EXAMPLE_CONFIG, ExampleResponse());
    PipelineSize(HalvingZstd(), EXAMPLE_CONFIG, ExampleResponse());
  }

  lemma ExampleUnsettled()
    ensures !Settled(HalvingZstd(), EXAMPLE_CONFIG, ExampleResponse())
  {
    ExampleShrinks();
    Halves();
  }

  lemma HalvingUndoes()
    ensures Inverse(HalvingZstd())
  {
    var z := HalvingZstd();
    forall x ensures z.decompress(z.compress(x).value, |x|) == Some(x) {
      assert ([1] + x)[0] == 1 && ([1] + x)[1..] == x;
      assert |Zeros(2048)| == 2048 && |Zeros(1024)| == 1024 && Zeros(2048)[0] == 0 && Zeros(1024)[0] == 0;
    }
  }

  lemma Halves()
    ensures HalvingZstd().compress(Zeros(4096)) == Some(Zeros(2048)) && |Zeros(4096)| == 4096
    ensures Worthwhile(DEFAULT_POLICY, Zeros(4096), Zeros(2048))
    ensures Encode(HalvingZstd(), DEFAULT_POLICY, Zeros(2048), Zstandard) == Ok(Encoded(Zstandard, 2048, Zeros(1024)))
  {
    assert |Zeros(4096)| == 4096 && |Zeros(2048)| == 2048;
    assert HalvingZstd().compress(Zeros(2048)) == Some(Zeros(1024));
  }

  // ---------------------------------------------------------------------------
  // Sizes

  /** A policy that never compresses at a loss and never answers a small body with an error. */
  predicate Frugal(policy: Policy) {
    ValidPolicy(policy) && policy.minSavings >= CODEC_PREFIX_LEN && policy.minPayload >= 29
  }

  lemma FitShrinks(f: Frame, maxBody: nat)
    ensures |Fit(f, maxBody).body| <= |f.body|
  {
  }

  lemma CompressShrinks(z: Zstd, cfg: Config, f: Frame)
    requires f.flags == 0 && Frugal(cfg.policy) && |f.body| <= cfg.policy.maxDecoded
    ensures |CompressFrame(z, cfg, f).body| <= |f.body|
  {
    CodecMapAdded(|f.body|);
    CodecMapWritten(|f.body|);
  }

  lemma PipelineShrinks(z: Zstd, cfg: Config, f: Frame)
    requires f.flags == 0 && Frugal(cfg.policy)
    ensures |Pipeline(z, cfg, f).body| <= |f.body|
  {
    var f1 := Fit(f, cfg.policy.maxDecoded);
    FitShrinks(f, cfg.policy.maxDecoded);
    if |f.body| <= cfg.policy.maxDecoded {
      CompressShrinks(z, cfg, f1);
    } else {
      assert CompressFrame(z, cfg, f1) == f1;
    }
    FitShrinks(CompressFrame(z, cfg, f1), cfg.maxBody);
  }

  lemma SecondPassShrinks(z: Zstd, cfg: Config, f: Frame)
    requires f.flags == 0 && Frugal(cfg.policy) && Shrinks(z, cfg, f)
    ensures |Pipeline(z, cfg, Pipeline(z, cfg, f)).body| <= |Pipeline(z, cfg, f).body|
  {
    var g := Pipeline(z, cfg, f);
    var data := z.compress(f.body).value;
    PipelineCases(z, cfg, f);
    CodecMapWritten(|f.body|);
    assert Fit(g, cfg.policy.maxDecoded) == g;
    CompressAgain(z, cfg, g, |f.body|, data);
    assert StaysPlain(z, cfg.policy, data) || |data| >= cfg.policy.minPayload;
    FitShrinks(CompressFrame(z, cfg, g), cfg.maxBody);
  }

  /** Under the default policy the bytes finally written for a queued frame, deferred or not,
      never exceed what was reserved for it when it was queued. */
  lemma WithinReservation(z: Zstd, cfg: Config, f: Frame)
    requires f.flags == 0 && Frugal(cfg.policy)
    ensures |FrameBytes(Pipeline(z, cfg, f))| <= HEADER_LEN + |f.body|
    ensures |FrameBytes(Pipeline(z, cfg, Pipeline(z, cfg, f)))| <= HEADER_LEN + |f.body|
    ensures Frugal(DEFAULT_POLICY)
  {
    PipelineShrinks(z, cfg, f);
    PipelineCases(z, cfg, f);
    if Shrinks(z, cfg, f) {
      SecondPassShrinks(z, cfg, f);
    } else {
      PipelineShrinks(z, cfg, Pipeline(z, cfg, f));
    }
  }
}
