/** A request body from the Java client to the Rust server: `enqueueRequestFrame` builds it,
    `request_payload` takes it apart. The round trip is proved for every body, deadline,
    trace context and user metadata, with the exact condition under which it succeeds. */
module Request {
  import opened Common
  import opened Wire
  import opened MetadataFormat
  import opened Compression
  import RustMetadata
  import JavaMetadata
  import opened RequestPrefix

  // ---------------------------------------------------------------------------
  // The client

  const INT_MAX := JavaMetadata.INT_MAX

  datatype Mode = Optional | Required | Disabled

  datatype Client = Client(zstdNegotiated: bool, options: Policy, maxMetadata: nat, maxBody: nat)

  datatype Call = Call(timeoutMillis: nat, trace: Option<TraceContext>, mode: Mode, metadata: seq<Entry>, body: bytes)

  /** What the callers of `enqueueRequestFrame` and the Java types see to. */
  predicate ValidCall(call: Call) {
    && 0 < call.timeoutMillis <= INT_MAX && |call.body| <= INT_MAX
    && (call.trace.Some? ==> ValidTrace(call.trace.value))
    && Canonical(call.metadata)
  }

  datatype ClientError = ZstdNotNegotiated | CannotCompress(error: CompressionError) | BadMetadata(length: LengthError)
    | MetadataOverLimit | BodyOverLimit

  /** The body as it goes on the wire. */
  function WireBody(z: Zstd, client: Client, call: Call): Result<Encoded, ClientError> {
    if call.mode == Required && !client.zstdNegotiated then Err(ZstdNotNegotiated)
    else if client.zstdNegotiated && call.mode != Disabled then
      var e := Encode(z, client.options, call.body, Zstandard);
      if e.Err? then Err(CannotCompress(e.error)) else Ok(e.value)
    else Ok(Encoded(Plain, |call.body|, call.body))
  }

  function RuntimeOf(call: Call, wire: Encoded): Runtime {
    Runtime(call.timeoutMillis, call.trace, wire.codec == Zstandard, wire.originalLength)
  }

  /** Specification of the frame body: the encoded union of the user's and the runtime's
      metadata, then the body, if all limits are met. */
  ghost function FrameBody(z: Zstd, client: Client, call: Call): Result<bytes, ClientError>
    requires ValidCall(call)
  {
    var wire := WireBody(z, client, call);
    if wire.Err? then Err(wire.error)
    else
      var runtime := RuntimeOf(call, wire.value);
      if !Disjoint(call.metadata, RuntimeEntries(runtime)) then Err(BadMetadata(DuplicateKey))
      else
        UnionCanonical(call.metadata, runtime);
        var prefix := EncodePrefix(UnionOf(call.metadata, runtime));
        if |prefix| > INT_MAX then Err(BadMetadata(Overflow))
        else if |prefix| - 4 > client.maxMetadata then Err(MetadataOverLimit)
        else if |wire.value.data| + |prefix| > INT_MAX then Err(BadMetadata(Overflow))
        else if |wire.value.data| + |prefix| > client.maxBody then Err(BodyOverLimit)
        else Ok(prefix + wire.value.data)
  }

  /** The part of `enqueueRequestFrame` that builds the body. */
  method BuildBody(z: Zstd, client: Client, call: Call) returns (r: Result<bytes, ClientError>)
    requires ValidCall(call)
    ensures r == FrameBody(z, client, call)
  {
    var wire := WireBody(z, client, call);
    if wire.Err? {
      return Err(wire.error);
    }
    var runtime := RuntimeOf(call, wire.value);
    assert ValidRuntime(runtime);
    var length := RequestPrefixLength(call.metadata, runtime);
    if length.Err? {
      return Err(BadMetadata(length.error));
    }
    if length.value - 4 > client.maxMetadata {
      return Err(MetadataOverLimit);
    }
    var bodyLength := AddExact(|wire.value.data|, length.value);
    if bodyLength.None? {
      return Err(BadMetadata(Overflow));
    }
    if bodyLength.value > client.maxBody {
      return Err(BodyOverLimit);
    }
    var prefix := WriteRequestPrefix(call.metadata, runtime, length.value);
    return Ok(prefix + wire.value.data);
  }

  // ---------------------------------------------------------------------------
  // The server

  datatype ErrorCode = InvalidRequest | CompressionFailure

  /** `available` is what the shared decoded-byte budget has left. */
  datatype Server = Server(maxMetadata: nat, zstdNegotiated: bool, policy: Policy, available: nat, retain: bool)

  /** `reserved` is what the request keeps of the decoded-byte budget. */
  datatype Parsed = Parsed(deadline: Option<nat>, trace: Option<TraceContext>, metadata: Option<seq<Entry>>,
                           payload: bytes, reserved: nat)

  function LimitsOf(server: Server): Limits {
    Limits(server.maxMetadata, 64, 8 * 1024)
  }

  function DeadlineOf(value: Option<bytes>): Result<Option<nat>, ErrorCode> {
    if value.None? then Ok(None)
    else if |value.value| != 4 || Number(value.value) == 0 then Err(InvalidRequest)
    else Ok(Some(Number(value.value)))
  }

  /** `TraceContext::decode` behind its length check. */
  function TraceOf(value: Option<bytes>): Result<Option<TraceContext>, ErrorCode> {
    if value.None? then Ok(None)
    else if |value.value| != TRACE_CONTEXT_LEN || value.value[24] > 1 then Err(InvalidRequest)
    else Ok(Some(TraceContext(value.value[0..16], value.value[16..24], value.value[24] == 1)))
  }

  function CompressionOf(codec: Option<bytes>, original: Option<bytes>): Result<Option<(Codec, nat)>, ErrorCode> {
    if codec.None? && original.None? then Ok(None)
    else if codec.None? || original.None? || |codec.value| != 1 then Err(CompressionFailure)
    else if codec.value[0] > 1 || |original.value| != 4 then Err(CompressionFailure)
    else Ok(Some((if codec.value[0] == 1 then Zstandard else Plain, Number(original.value))))
  }

  function PayloadFor(z: Zstd, server: Server, compression: Option<(Codec, nat)>, data: bytes)
    : Result<(bytes, nat), ErrorCode>
  {
    if compression.None? then Ok((data, 0))
    else if compression.value.0 != Zstandard || !server.zstdNegotiated then Err(CompressionFailure)
    else
      var decoded := Decode(z, server.policy, Zstandard, data, compression.value.1, server.available);
      if decoded.Err? then Err(CompressionFailure) else Ok(decoded.value)
  }

  /** What an accepted metadata map and the rest of the body mean. */
  function Meaning(z: Zstd, server: Server, deadline: Option<bytes>, trace: Option<bytes>, codec: Option<bytes>,
                   original: Option<bytes>, metadata: seq<Entry>, data: bytes): Result<Parsed, ErrorCode>
  {
    var d := DeadlineOf(deadline);
    var t := TraceOf(trace);
    var c := CompressionOf(codec, original);
    if d.Err? then Err(d.error)
    else if t.Err? then Err(t.error)
    else if c.Err? then Err(c.error)
    else
      var p := PayloadFor(z, server, c.value, data);
      if p.Err? then Err(p.error)
      else Ok(Parsed(d.value, t.value, if server.retain then Some(metadata) else None, p.value.0, p.value.1))
  }

  function MeaningOf(z: Zstd, server: Server, m: seq<Entry>, data: bytes): Result<Parsed, ErrorCode> {
    Meaning(z, server, Lookup(m, Reserved(DEADLINE)), Lookup(m, Reserved(TRACE)), Lookup(m, Reserved(CODEC)),
            Lookup(m, Reserved(ORIGINAL_LENGTH)), m, data)
  }

  /** Specification of `request_payload` through the reference reading of the block. */
  function Received(z: Zstd, server: Server, hasMetadata: bool, body: bytes): Result<Parsed, ErrorCode> {
    var limits := LimitsOf(server);
    if !hasMetadata then MeaningOf(z, server, [], body)
    else if !Accepted(body, limits) then Err(InvalidRequest)
    else MeaningOf(z, server, Project(Parse(BlockOf(body, limits), 0).value), PayloadOf(body, limits))
  }

  function LastValue(items: seq<(int, bytes)>, id: int): Option<bytes> {
    if items == [] then None
    else if items[|items| - 1].0 == id then Some(items[|items| - 1].1)
    else LastValue(items[..|items| - 1], id)
  }

  /** The four values `request_payload` picks out of the reserved entries. */
  method PickValues(items: seq<(int, bytes)>)
    returns (deadline: Option<bytes>, trace: Option<bytes>, codec: Option<bytes>, original: Option<bytes>)
    ensures deadline == LastValue(items, DEADLINE) && trace == LastValue(items, TRACE)
    ensures codec == LastValue(items, CODEC) && original == LastValue(items, ORIGINAL_LENGTH)
  {
    deadline, trace, codec, original := None, None, None, None;
    for i := 0 to |items|
      invariant deadline == LastValue(items[..i], DEADLINE) && trace == LastValue(items[..i], TRACE)
      invariant codec == LastValue(items[..i], CODEC) && original == LastValue(items[..i], ORIGINAL_LENGTH)
    {
      assert items[..i + 1][..i] == items[..i];
      var (key, value) := items[i];
      if key == DEADLINE {
        deadline := Some(value);
      } else if key == TRACE {
        trace := Some(value);
      } else if key == CODEC {
        codec := Some(value);
      } else if key == ORIGINAL_LENGTH {
        original := Some(value);
      }
    }
    assert items[..|items|] == items;
  }

  lemma {:induction false} LastValueCons(item: (int, bytes), items: seq<(int, bytes)>, id: int)
    ensures LastValue([item] + items, id) ==
      if LastValue(items, id).Some? then LastValue(items, id) else if item.0 == id then Some(item.1) else None
  {
    var all := [item] + items;
    if items == [] {
      assert all[..0] == [];
    } else {
      LastValueCons(item, items[..|items| - 1], id);
      assert all[..|all| - 1] == [item] + items[..|items| - 1];
    }
  }

  lemma {:induction false} LookupAbsent(m: seq<Entry>, key: Key)
    requires forall i :: 0 <= i < |m| ==> m[i].key != key
    ensures Lookup(m, key) == None
  {
    if m != [] {
      LookupAbsent(m[1..], key);
    }
  }

  /** In a map the last value under a key is the only one. */
  lemma {:induction false} LastIsLookup(m: seq<Entry>, id: int)
    requires Canonical(m)
    ensures LastValue(FlatMap(m, RustMetadata.ReservedOf), id) == Lookup(m, Reserved(id))
  {
    if m != [] {
      LastIsLookup(m[1..], id);
      var rest := FlatMap(m[1..], RustMetadata.ReservedOf);
      assert FlatMap(m, RustMetadata.ReservedOf) == RustMetadata.ReservedOf(m[0]) + rest;
      if m[0].key.Reserved? {
        LastValueCons((m[0].key.id, m[0].value), rest, id);
        if m[0].key == Reserved(id) {
          LookupAbsent(m[1..], Reserved(id));
        }
      } else {
        assert [] + rest == rest;
      }
    }
  }

  /** `request_payload`. */
  method RequestPayload(z: Zstd, server: Server, hasMetadata: bool, body: bytes) returns (r: Result<Parsed, ErrorCode>)
    ensures r == Received(z, server, hasMetadata, body)
  {
    if !hasMetadata {
      return Meaning(z, server, None, None, None, None, [], body);
    }
    var limits := LimitsOf(server);
    var validated, _ := RustMetadata.Validate(body, limits);
    if validated.Err? {
      return Err(InvalidRequest);
    }
    var (block, payload) := validated.value;
    var items := RustMetadata.ReservedEntries(block, limits);
    var deadline, trace, codec, original := PickValues(items);
    var owned := RustMetadata.IntoMetadata(block, limits);
    ghost var m := Project(Parse(block, 0).value);
    LastIsLookup(m, DEADLINE);
    LastIsLookup(m, TRACE);
    LastIsLookup(m, CODEC);
    LastIsLookup(m, ORIGINAL_LENGTH);
    var data := body[|body| - |payload|..];
    assert data == payload;
    r := Meaning(z, server, deadline, trace, codec, original, if owned.Ok? then owned.value else [], data);
  }

  // ---------------------------------------------------------------------------
  // The round trip

  lemma {:induction false} LookupMember(m: seq<Entry>, e: Entry)
    requires Canonical(m) && e in m
    ensures Lookup(m, e.key) == Some(e.value)
  {
    assert m == [m[0]] + m[1..];
    if e in m[1..] {
      var i :| 0 <= i < |m[1..]| && m[1..][i] == e;
      RustMetadata.KeyLessAsymmetric(m[0].key, m[i + 1].key);
      LookupMember(m[1..], e);
    }
  }

  /** What the server finds in the union under a request key: the runtime's value if this
      request carries the key, else whatever the user's metadata has there. */
  lemma LookupUnion(m: seq<Entry>, r: Runtime, k: nat)
    requires Canonical(m) && Disjoint(m, RuntimeEntries(r)) && k < 4
    ensures Canonical(UnionOf(m, r))
    ensures Lookup(UnionOf(m, r), Reserved(REQUEST_KEYS[k])) ==
      if Carries(k, r) then Some(Value(REQUEST_KEYS[k], r)) else Lookup(m, Reserved(REQUEST_KEYS[k]))
  {
    UnionCanonical(m, r);
    if Carries(k, r) {
      var e := Entry(Reserved(REQUEST_KEYS[k]), Value(REQUEST_KEYS[k], r));
      RuntimeFromMembers(0, k, r);
      MergeMembers(m, RuntimeEntries(r), e);
      LookupMember(UnionOf(m, r), e);
    } else {
      LookupUncarried(m, r, k);
    }
  }

  lemma LookupUncarried(m: seq<Entry>, r: Runtime, k: nat)
    requires Canonical(m) && Canonical(UnionOf(m, r)) && k < 4 && !Carries(k, r)
    ensures Lookup(UnionOf(m, r), Reserved(REQUEST_KEYS[k])) == Lookup(m, Reserved(REQUEST_KEYS[k]))
  {
    var u, key := UnionOf(m, r), Reserved(REQUEST_KEYS[k]);
    if i :| 0 <= i < |m| && m[i].key == key {
      MergeMembers(m, RuntimeEntries(r), m[i]);
      LookupMember(m, m[i]);
      LookupMember(u, m[i]);
    } else {
      forall i | 0 <= i < |u| ensures u[i].key != key {
        MergeMembers(m, RuntimeEntries(r), u[i]);
        if u[i] in RuntimeEntries(r) {
          var j :| 0 <= j < |RuntimeEntries(r)| && RuntimeEntries(r)[j] == u[i];
          var l := RuntimeFromCarried(0, j, r);
        }
      }
      LookupAbsent(m, key);
      LookupAbsent(u, key);
    }
  }

  lemma UnionWritable(u: seq<Entry>)
    requires Canonical(u) && |EncodeBlock(u)| <= INT_MAX
    ensures Writable(u)
  {
    BlockSize(u);
    SumBounds(u, Size);
    forall i | 0 <= i < |u| ensures |u[i].value| < 0x1_0000_0000 {
      assert u[i] in u && Size(u[i]) <= Sum(u, Size);
    }
  }

  lemma DeadlineReadBack(millis: nat)
    requires 0 < millis <= INT_MAX
    ensures DeadlineOf(Some(BigEndian(millis, 4))) == Ok(Some(millis))
  {
    Capacities();
    NumberOfBigEndian(millis, 4);
  }

  lemma TraceReadBack(trace: TraceContext)
    requires ValidTrace(trace)
    ensures TraceOf(Some(TraceBytes(trace))) == Ok(Some(trace))
  {
    var s := TraceBytes(trace);
    assert s[0..16] == trace.traceId && s[16..24] == trace.parentSpanId && s[24] == if trace.sampled then 1 else 0;
  }

  /** Bytes read as a trace context if and only if they are one written. */
  lemma TraceReadsIff(value: bytes, trace: TraceContext)
    ensures TraceOf(Some(value)) == Ok(Some(trace)) <==> ValidTrace(trace) && value == TraceBytes(trace)
  {
    if ValidTrace(trace) && value == TraceBytes(trace) {
      TraceReadBack(trace);
    }
    if TraceOf(Some(value)) == Ok(Some(trace)) {
      assert value == value[0..16] + value[16..24] + [value[24]];
    }
  }

  /** Bytes read as a deadline if and only if they are a positive number written in four bytes. */
  lemma DeadlineReadsIff(value: bytes, deadline: nat)
    ensures DeadlineOf(Some(value)) == Ok(Some(deadline)) <==>
      0 < deadline < Capacity(4) && value == BigEndian(deadline, 4)
  {
    if |value| == 4 {
      BigEndianOfNumber(value);
      NumberBound(value);
    }
    if deadline < Capacity(4) {
      NumberOfBigEndian(deadline, 4);
    }
  }

  /** A codec and a length are taken together or not at all. */
  lemma CompressionReadsIff(codec: Option<bytes>, original: Option<bytes>, c: Codec, length: nat)
    ensures CompressionOf(codec, original) == Ok(None) <==> codec == None && original == None
    ensures CompressionOf(codec, original) == Ok(Some((c, length))) <==>
      && codec == Some([if c == Zstandard then 1 else 0])
      && length < Capacity(4) && original == Some(BigEndian(length, 4))
  {
    if original.Some? && |original.value| == 4 {
      BigEndianOfNumber(original.value);
      NumberBound(original.value);
    }
    if length < Capacity(4) {
      NumberOfBigEndian(length, 4);
    }
    if codec.Some? && |codec.value| == 1 {
      assert codec.value == [codec.value[0]];
    }
  }

  lemma CompressionReadBack(length: nat)
    requires length <= INT_MAX
    ensures CompressionOf(Some([1]), Some(BigEndian(length, 4))) == Ok(Some((Zstandard, length)))
  {
    Capacities();
    NumberOfBigEndian(length, 4);
  }

  /** What the union means to the server. */
  lemma UnionMeans(z: Zstd, server: Server, call: Call, wire: Encoded)
    requires ValidCall(call) && wire.originalLength <= INT_MAX
    requires Disjoint(call.metadata, RuntimeEntries(RuntimeOf(call, wire)))
    ensures var m, u := call.metadata, UnionOf(call.metadata, RuntimeOf(call, wire));
      MeaningOf(z, server, u, wire.data) ==
        Meaning(z, server, Some(BigEndian(call.timeoutMillis, 4)),
                if call.trace.Some? then Some(TraceBytes(call.trace.value)) else Lookup(m, Reserved(TRACE)),
                if wire.codec == Zstandard then Some([1]) else Lookup(m, Reserved(CODEC)),
                if wire.codec == Zstandard then Some(BigEndian(wire.originalLength, 4))
                  else Lookup(m, Reserved(ORIGINAL_LENGTH)),
                u, wire.data)
  {
    var r := RuntimeOf(call, wire);
    LookupUnion(call.metadata, r, 0);
    LookupUnion(call.metadata, r, 1);
    LookupUnion(call.metadata, r, 2);
    LookupUnion(call.metadata, r, 3);
  }

  // User metadata may hold a request key that this request does not carry: a trace context on
  // a request without one, or codec entries on a plain body.

  /** Codec entries that a plain body survives: none, or those of an empty body that the
      decompressor gives back for no input. */
  predicate CodecHarmless(z: Zstd, server: Server, codec: Option<bytes>, length: Option<bytes>, body: bytes) {
    || (codec.None? && length.None?)
    || (&& codec == Some([1]) && length == Some(BigEndian(0, 4)) && body == []
        && server.zstdNegotiated && ValidPolicy(server.policy) && z.decompress([], 0) == Some([]))
  }

  lemma PlainReadBack(z: Zstd, server: Server, codec: Option<bytes>, length: Option<bytes>, body: bytes)
    ensures var c := CompressionOf(codec, length);
      (c.Ok? && PayloadFor(z, server, c.value, body) == Ok((body, 0))) <==>
        CodecHarmless(z, server, codec, length, body)
  {
    Capacities();
    NumberOfBigEndian(0, 4);
    if length.Some? && |length.value| == 4 && Number(length.value) == 0 {
      BigEndianOfNumber(length.value);
    }
    if codec.Some? && |codec.value| == 1 && codec.value[0] == 1 {
      assert codec.value == [1];
    }
  }

  predicate StrayHarmless(z: Zstd, server: Server, call: Call, wire: Encoded) {
    && (call.trace.None? ==> Lookup(call.metadata, Reserved(TRACE)) == None)
    && (wire.codec == Plain ==>
          CodecHarmless(z, server, Lookup(call.metadata, Reserved(CODEC)),
            Lookup(call.metadata, Reserved(ORIGINAL_LENGTH)), call.body))
  }

  predicate NoRequestKeys(m: seq<Entry>) {
    forall i :: 0 <= i < |m| ==> m[i].key.User? || m[i].key.id !in REQUEST_KEYS
  }

  lemma NothingStray(z: Zstd, server: Server, call: Call, wire: Encoded)
    requires NoRequestKeys(call.metadata)
    ensures StrayHarmless(z, server, call, wire)
    ensures Lookup(call.metadata, Reserved(TRACE)) == None
    ensures Lookup(call.metadata, Reserved(CODEC)) == None && Lookup(call.metadata, Reserved(ORIGINAL_LENGTH)) == None
  {
    LookupAbsent(call.metadata, Reserved(TRACE));
    LookupAbsent(call.metadata, Reserved(CODEC));
    LookupAbsent(call.metadata, Reserved(ORIGINAL_LENGTH));
  }

  /** What the server has to grant for a request to arrive. */
  predicate Admits(server: Server, u: seq<Entry>, wire: Encoded)
    requires Writable(u)
  {
    && WithinLimits(u, LimitsOf(server))
    && (wire.codec == Zstandard ==> server.zstdNegotiated && Receivable(server.policy, wire, server.available))
  }

  lemma WireReadBack(z: Zstd, client: Client, server: Server, call: Call)
    requires Inverse(z) && ValidCall(call) && WireBody(z, client, call).Ok?
    ensures var wire := WireBody(z, client, call).value;
      var compression := if wire.codec == Zstandard then Some((Zstandard, wire.originalLength)) else None;
      var p := PayloadFor(z, server, compression, wire.data);
      && wire.originalLength == |call.body|
      && (p.Ok? <==> (wire.codec == Zstandard ==>
           server.zstdNegotiated && Receivable(server.policy, wire, server.available)))
      && (p.Ok? ==> p.value == (call.body, if wire.codec == Zstandard then |call.body| else 0))
  {
  }

  /** What the server should make of a request. */
  function Expected(server: Server, call: Call, wire: Encoded): Parsed {
    Parsed(Some(call.timeoutMillis), call.trace,
           if server.retain then Some(UnionOf(call.metadata, RuntimeOf(call, wire))) else None,
           call.body, if wire.codec == Zstandard then |call.body| else 0)
  }

  /** The body is sent, and the server reads it as the same call. */
  ghost predicate Arrives(z: Zstd, client: Client, server: Server, call: Call)
    requires ValidCall(call) && FrameBody(z, client, call).Ok?
  {
    Received(z, server, true, FrameBody(z, client, call).value) ==
      Ok(Expected(server, call, WireBody(z, client, call).value))
  }

  /** What an accepted block makes of the call. */
  lemma MeaningArrives(z: Zstd, client: Client, server: Server, call: Call)
    requires Inverse(z) && ValidCall(call) && WireBody(z, client, call).Ok?
    requires Disjoint(call.metadata, RuntimeEntries(RuntimeOf(call, WireBody(z, client, call).value)))
    ensures var wire := WireBody(z, client, call).value;
      var u := UnionOf(call.metadata, RuntimeOf(call, wire));
      && (MeaningOf(z, server, u, wire.data) == Ok(Expected(server, call, wire)) <==>
            && (wire.codec == Zstandard ==> server.zstdNegotiated && Receivable(server.policy, wire, server.available))
            && StrayHarmless(z, server, call, wire))
      && (NoRequestKeys(call.metadata) && MeaningOf(z, server, u, wire.data).Ok? ==>
            MeaningOf(z, server, u, wire.data) == Ok(Expected(server, call, wire)))
  {
    var wire := WireBody(z, client, call).value;
    WireReadBack(z, client, server, call);
    UnionMeans(z, server, call, wire);
    DeadlineReadBack(call.timeoutMillis);
    if call.trace.Some? { TraceReadBack(call.trace.value); }
    CompressionReadBack(wire.originalLength);
    var m := call.metadata;
    PlainReadBack(z, server, Lookup(m, Reserved(CODEC)), Lookup(m, Reserved(ORIGINAL_LENGTH)), call.body);
    assert wire.codec == Plain ==> wire.data == call.body;
    if NoRequestKeys(m) { NothingStray(z, server, call, wire); }
  }

  lemma AcceptedIffWithin(z: Zstd, client: Client, server: Server, call: Call)
    requires ValidCall(call) && FrameBody(z, client, call).Ok?
    ensures var wire := WireBody(z, client, call).value;
      var runtime := RuntimeOf(call, wire);
      var u := UnionOf(call.metadata, runtime);
      && Disjoint(call.metadata, RuntimeEntries(runtime)) && Writable(u)
      && Received(z, server, true, FrameBody(z, client, call).value) ==
           if WithinLimits(u, LimitsOf(server)) then MeaningOf(z, server, u, wire.data) else Err(InvalidRequest)
  {
    var wire := WireBody(z, client, call).value;
    var u := UnionOf(call.metadata, RuntimeOf(call, wire));
    UnionCanonical(call.metadata, RuntimeOf(call, wire));
    UnionWritable(u);
    RoundTrip(u, wire.data, LimitsOf(server));
  }

  /** Whatever the client sends, compressed or not, the server takes back as the same body,
      deadline, trace context and metadata, if and only if it admits the metadata and, for a
      compressed body, its decoded size, and no request key the user slipped in misleads it.
      Without such a key nothing is ever taken back wrongly: it arrives or is refused. */
  lemma RequestRoundTrip(z: Zstd, client: Client, server: Server, call: Call)
    requires Inverse(z) && ValidCall(call)
    ensures FrameBody(z, client, call).Ok? ==>
      var wire := WireBody(z, client, call).value;
      var u := UnionOf(call.metadata, RuntimeOf(call, wire));
      && Writable(u)
      && (Arrives(z, client, server, call) <==> Admits(server, u, wire) && StrayHarmless(z, server, call, wire))
      && (NoRequestKeys(call.metadata) && Received(z, server, true, FrameBody(z, client, call).value).Ok? ==>
            Arrives(z, client, server, call))
  {
    if FrameBody(z, client, call).Ok? {
      AcceptedIffWithin(z, client, server, call);
      MeaningArrives(z, client, server, call);
    }
  }

  /** With the same negotiated limits on both sides and a free budget, what remains are the
      two limits the client does not check, 64 entries and 8 KiB per value, and stray keys. */
  lemma RequestArrivesIff(z: Zstd, client: Client, server: Server, call: Call)
    requires Inverse(z) && ValidCall(call)
    requires client.maxMetadata <= server.maxMetadata && client.zstdNegotiated == server.zstdNegotiated
    requires client.options.maxRatio <= server.policy.maxRatio && client.options.maxDecoded <= server.policy.maxDecoded
    requires ValidPolicy(server.policy) && |call.body| <= server.available
    ensures FrameBody(z, client, call).Ok? ==>
      var wire := WireBody(z, client, call).value;
      (Arrives(z, client, server, call) <==>
        && |call.metadata| + |RuntimeEntries(RuntimeOf(call, wire))| <= 64
        && (forall i :: 0 <= i < |call.metadata| ==> |call.metadata[i].value| <= 8 * 1024)
        && StrayHarmless(z, server, call, wire))
  {
    if FrameBody(z, client, call).Ok? {
      RequestRoundTrip(z, client, server, call);
      CountsDecide(z, client, server, call);
    }
  }

  lemma CountsDecide(z: Zstd, client: Client, server: Server, call: Call)
    requires ValidCall(call) && FrameBody(z, client, call).Ok?
    requires client.maxMetadata <= server.maxMetadata && client.zstdNegotiated == server.zstdNegotiated
    requires client.options.maxRatio <= server.policy.maxRatio && client.options.maxDecoded <= server.policy.maxDecoded
    requires ValidPolicy(server.policy) && |call.body| <= server.available
    ensures var wire := WireBody(z, client, call).value;
      var u := UnionOf(call.metadata, RuntimeOf(call, wire));
      Writable(u) ==> (Admits(server, u, wire) <==>
        && |call.metadata| + |RuntimeEntries(RuntimeOf(call, wire))| <= 64
        && forall i :: 0 <= i < |call.metadata| ==> |call.metadata[i].value| <= 8 * 1024)
  {
    var wire := WireBody(z, client, call).value;
    var runtime := RuntimeOf(call, wire);
    var u := UnionOf(call.metadata, runtime);
    if Writable(u) {
      FrameBodyMetadata(z, client, call);
      WireReceivable(z, client, server, call);
      UnionLimits(call.metadata, runtime);
      AdmitsIff(server, u, wire);
    }
  }

  lemma FrameBodyMetadata(z: Zstd, client: Client, call: Call)
    requires ValidCall(call) && FrameBody(z, client, call).Ok?
    ensures var runtime := RuntimeOf(call, WireBody(z, client, call).value);
      var u := UnionOf(call.metadata, runtime);
      Canonical(u) && |EncodeBlock(u)| <= client.maxMetadata && ValidRuntime(runtime)
  {
    UnionCanonical(call.metadata, RuntimeOf(call, WireBody(z, client, call).value));
  }

  lemma AdmitsIff(server: Server, u: seq<Entry>, wire: Encoded)
    requires Writable(u) && |EncodeBlock(u)| <= server.maxMetadata
    requires wire.codec == Zstandard ==> server.zstdNegotiated && Receivable(server.policy, wire, server.available)
    ensures Admits(server, u, wire) <==> |u| <= 64 && forall i :: 0 <= i < |u| ==> |u[i].value| <= 8 * 1024
  {
  }

  lemma WireReceivable(z: Zstd, client: Client, server: Server, call: Call)
    requires WireBody(z, client, call).Ok? && ValidPolicy(server.policy)
    requires client.options.maxRatio <= server.policy.maxRatio && client.options.maxDecoded <= server.policy.maxDecoded
    requires |call.body| <= server.available
    ensures var wire := WireBody(z, client, call).value;
      wire.codec == Zstandard ==> client.zstdNegotiated && Receivable(server.policy, wire, server.available)
  {
    if client.zstdNegotiated && call.mode != Disabled {
      RatioTestImplied(z, client.options, server.policy, call.body, Zstandard, server.available);
    }
  }

  /** The count and value limits on the union are limits on the user's entries. */
  lemma UnionLimits(m: seq<Entry>, runtime: Runtime)
    requires ValidRuntime(runtime)
    ensures var u := UnionOf(m, runtime);
      && |u| == |m| + |RuntimeEntries(runtime)|
      && ((forall i :: 0 <= i < |u| ==> |u[i].value| <= 8 * 1024) <==>
           forall i :: 0 <= i < |m| ==> |m[i].value| <= 8 * 1024)
  {
    var u := UnionOf(m, runtime);
    MergeCount(m, RuntimeEntries(runtime));
    RuntimeValuesSmall(0, runtime);
    forall i | 0 <= i < |m| ensures m[i] in u {
      MergeMembers(m, RuntimeEntries(runtime), m[i]);
    }
    forall i | 0 <= i < |u| ensures u[i] in m || |u[i].value| <= 25 {
      MergeMembers(m, RuntimeEntries(runtime), u[i]);
    }
  }

  lemma {:induction false} MergeCount(m: seq<Entry>, extra: seq<Entry>)
    ensures |Merge(m, extra)| == |m| + |extra|
    decreases |m| + |extra|
  {
    if m != [] && extra != [] {
      if KeyLess(m[0].key, extra[0].key) {
        MergeCount(m[1..], extra);
      } else {
        MergeCount(m, extra[1..]);
      }
    }
  }

  lemma {:induction false} RuntimeValuesSmall(k: nat, r: Runtime)
    requires k <= 4 && ValidRuntime(r)
    ensures forall e :: e in RuntimeFrom(k, r) ==> |e.value| <= 25
    decreases 4 - k
  {
  }

  // ---------------------------------------------------------------------------
  // When a request is sent, and how

  /** Everything the client checks before it sends: the codec, the keys and its two limits. */
  lemma SentIff(z: Zstd, client: Client, call: Call)
    requires ValidCall(call)
    ensures FrameBody(z, client, call).Ok? <==>
      && WireBody(z, client, call).Ok?
      && var wire := WireBody(z, client, call).value;
         var runtime := RuntimeOf(call, wire);
         var entries := Sum(call.metadata, Size) + Sum(RuntimeEntries(runtime), Size);
         && Disjoint(call.metadata, RuntimeEntries(runtime))
         && entries <= client.maxMetadata
         && 4 + entries + |wire.data| <= INT_MAX && 4 + entries + |wire.data| <= client.maxBody
  {
    if WireBody(z, client, call).Ok? {
      var runtime := RuntimeOf(call, WireBody(z, client, call).value);
      if Disjoint(call.metadata, RuntimeEntries(runtime)) {
        UnionLength(call.metadata, runtime);
      }
    }
  }

  /** A body goes out compressed if and only if compression is negotiated, not switched off
      and worth its while; it fails only if compression was demanded in vain or the policy or
      the codec fails. */
  lemma CompressedIff(z: Zstd, client: Client, call: Call)
    ensures var w := WireBody(z, client, call);
      var zstd := client.zstdNegotiated && call.mode != Disabled;
      var tries := zstd && |call.body| >= client.options.minPayload;
      && (w.Ok? <==>
           && (call.mode == Required ==> client.zstdNegotiated)
           && (zstd ==> ValidPolicy(client.options) && |call.body| <= client.options.maxDecoded)
           && (tries ==> z.compress(call.body).Some?))
      && (w.Ok? ==>
           && w.value.originalLength == |call.body|
           && (w.value.codec == Zstandard <==>
                tries && Worthwhile(client.options, call.body, z.compress(call.body).value))
           && w.value.data == if w.value.codec == Zstandard then z.compress(call.body).value else call.body)
  {
    EncodeMeans(z, client.options, call.body, Zstandard);
  }

  // ---------------------------------------------------------------------------
  // A request the client sends and the server refuses

  /** A codec that never shrinks anything. */
  function StoringZstd(): Zstd {
    Zstd(x => Some(x), (s, _) => Some(s))
  }

  function LargeValueCall(): Call {
    Call(1000, None, Optional, [Entry(User([97]), seq(9000, _ => 0))], [])
  }

  const DEFAULT_CLIENT := Client(true, DEFAULT_POLICY, 16 * 1024, 8 * 1024 * 1024)
  const DEFAULT_SERVER := Server(16 * 1024, true, DEFAULT_POLICY, 64 * 1024 * 1024, true)

  /** A value of more than 8 KiB is refused, whatever the client thought of it. */
  lemma LargeValueRefused(z: Zstd, client: Client, server: Server, call: Call, i: nat)
    requires ValidCall(call) && FrameBody(z, client, call).Ok?
    requires i < |call.metadata| && |call.metadata[i].value| > 8 * 1024
    ensures Received(z, server, true, FrameBody(z, client, call).value) == Err(InvalidRequest)
  {
    AcceptedIffWithin(z, client, server, call);
    MergeMembers(call.metadata, RuntimeEntries(RuntimeOf(call, WireBody(z, client, call).value)), call.metadata[i]);
  }

  lemma LargeValueSize(runtime: Runtime)
    requires ValidRuntime(runtime)
    ensures var m := LargeValueCall().metadata;
      && Canonical(m) && NoRequestKeys(m) && |m| == 1 && |m[0].value| == 9000
      && Disjoint(m, RuntimeEntries(runtime)) && Canonical(UnionOf(m, runtime))
      && |EncodePrefix(UnionOf(m, runtime))| <= 4 + 9008 + 62
  {
    var m := LargeValueCall().metadata;
    assert m[0].key == User([97]) && |m[0].value| == 9000 && m[1..] == [];
    assert Disjoint(m, RuntimeEntries(runtime)) by { DisjointIff(m, runtime); }
    UnionLength(m, runtime);
    RuntimeSize(runtime);
    assert Sum(m, Size) == Size(m[0]) + Sum(m[1..], Size);
  }

  /** One value of 9000 bytes: within every limit the client checks, over one it does not. */
  lemma LargeValueIsSentAndRefused()
    ensures Inverse(StoringZstd()) && ValidCall(LargeValueCall()) && NoRequestKeys(LargeValueCall().metadata)
    ensures FrameBody(StoringZstd(), DEFAULT_CLIENT, LargeValueCall()).Ok?
    ensures Received(StoringZstd(), DEFAULT_SERVER, true,
                     FrameBody(StoringZstd(), DEFAULT_CLIENT, LargeValueCall()).value) == Err(InvalidRequest)
  {
    var z, call := StoringZstd(), LargeValueCall();
    assert WireBody(z, DEFAULT_CLIENT, call) == Ok(Encoded(Plain, 0, []));
    LargeValueSize(RuntimeOf(call, Encoded(Plain, 0, [])));
    LargeValueRefused(z, DEFAULT_CLIENT, DEFAULT_SERVER, call, 0);
  }
}
