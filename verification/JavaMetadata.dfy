/** The Java decoder of the metadata block (MoonLightMetadata.java), which checks in another
    order than the Rust one. */
module JavaMetadata {
  import opened Common
  import opened Wire
  import opened MetadataFormat
  import RustMetadata

  const INT_MAX: int := 0x7FFF_FFFF

  // ---------------------------------------------------------------------------
  // Decoding

  /** "moonlight-", the prefix Java keeps for the runtime. */
  const RUNTIME_PREFIX: bytes := [109, 111, 111, 110, 108, 105, 103, 104, 116, 45]

  predicate RuntimeName(raw: Raw) {
    KeyId(raw) == USER_KEY_ID && RUNTIME_PREFIX <= raw.name
  }

  predicate NoRuntimeNames(raws: seq<Raw>) {
    forall i :: 0 <= i < |raws| ==> !RuntimeName(raws[i])
  }

  /** `TreeMap.put`. */
  function Put(m: seq<Entry>, entry: Entry): seq<Entry> {
    if m == [] || KeyLess(entry.key, m[0].key) then [entry] + m
    else if m[0].key == entry.key then [entry] + m[1..]
    else [m[0]] + Put(m[1..], entry)
  }

  lemma {:induction false} PutIsInsert(m: seq<Entry>, entry: Entry)
    requires RustMetadata.Insert(m, entry).Some?
    ensures Put(m, entry) == RustMetadata.Insert(m, entry).value
  {
    if m != [] && !KeyLess(entry.key, m[0].key) {
      PutIsInsert(m[1..], entry);
    }
  }

  /** And of a present key it replaces the value. */
  lemma {:induction false} PutMeans(m: seq<Entry>, entry: Entry, key: Key)
    ensures Lookup(Put(m, entry), key) == if key == entry.key then Some(entry.value) else Lookup(m, key)
  {
    if m != [] && !KeyLess(entry.key, m[0].key) && m[0].key != entry.key {
      PutMeans(m[1..], entry, key);
    }
  }

  method CheckEntry(previous: Option<Raw>, raw: Raw) returns (ok: bool)
    ensures ok <==> KeyAllowed(raw) && !RuntimeName(raw) && (previous.Some? ==> Order(previous.value, raw) < 0)
  {
    if previous.Some? && Order(previous.value, raw) >= 0 {
      return false;
    }
    if KeyId(raw) == USER_KEY_ID {
      return raw.name != [] && |raw.name| <= 255 && !(RUNTIME_PREFIX <= raw.name) && ValidUserKey(raw.name);
    }
    return raw.name == [] && (KnownReserved(KeyId(raw)) || !Critical(raw));
  }

  /** Accepts what the Rust decoder accepts, less the blocks with a user key in the runtime's
      namespace, and then gives the same entries and payload. */
  method Decode(input: bytes, limits: Limits) returns (r: Option<(seq<Entry>, bytes)>)
    requires 1 <= limits.maxBytes && 1 <= limits.maxEntries && 1 <= limits.maxValueBytes
    ensures r.Some? <==> Accepted(input, limits) && NoRuntimeNames(Parse(BlockOf(input, limits), 0).value)
    ensures r.Some? ==> r.value == (Project(Parse(BlockOf(input, limits), 0).value), PayloadOf(input, limits))
  {
    if |input| < 4 {
      return None;
    }
    var announced := Number(input[..4]);
    if announced > |input| - 4 || announced > limits.maxBytes {
      return None;
    }
    var blockEnd := 4 + announced;
    var decoded := DecodeBlock(input[4..blockEnd], limits);
    if decoded.None? {
      return None;
    }
    return Some((decoded.value, input[blockEnd..]));
  }

  /** The two decoders on the same input and limits. */
  method DecodeBoth(input: bytes, limits: Limits)
    returns (java: Option<(seq<Entry>, bytes)>, rust: Result<(seq<Entry>, bytes), RustMetadata.ProtocolError>)
    requires 1 <= limits.maxBytes && 1 <= limits.maxEntries <= RustMetadata.U16_MAX && 1 <= limits.maxValueBytes
    ensures java.Some? <==> rust.Ok? && NoRuntimeKeys(rust.value.0)
    ensures java.Some? ==> java.value == rust.value
  {
    java := Decode(input, limits);
    rust := RustMetadata.Decode(input, limits);
    if rust.Ok? {
      RuntimeNamesAreKeys(Parse(BlockOf(input, limits), 0).value);
    }
  }

  predicate RuntimeKey(key: Key) {
    key.User? && RUNTIME_PREFIX <= key.name
  }

  predicate NoRuntimeKeys(m: seq<Entry>) {
    forall i :: 0 <= i < |m| ==> !RuntimeKey(m[i].key)
  }

  lemma NoRuntimeKeysConcat(a: seq<Entry>, b: seq<Entry>)
    ensures NoRuntimeKeys(a + b) <==> NoRuntimeKeys(a) && NoRuntimeKeys(b)
  {
    assert forall i :: 0 <= i < |a| ==> (a + b)[i] == a[i];
    assert forall i :: 0 <= i < |b| ==> (a + b)[|a| + i] == b[i];
  }

  /** The namespace rule on the entries is the one on the map. */
  lemma {:induction false} RuntimeNamesAreKeys(raws: seq<Raw>)
    ensures NoRuntimeNames(raws) <==> NoRuntimeKeys(Project(raws))
  {
    if raws != [] {
      RuntimeNamesAreKeys(raws[1..]);
      NoRuntimeKeysConcat(Kept(raws[0]), Project(raws[1..]));
      assert KeyOf(raws[0]).Some? ==> Kept(raws[0])[0].key == KeyOf(raws[0]).value;
      assert NoRuntimeKeys(Kept(raws[0])) <==> !RuntimeName(raws[0]);
      assert forall i :: 0 < i < |raws| ==> raws[i] == raws[1..][i - 1];
      assert forall i :: 0 <= i < |raws[1..]| ==> raws[1..][i] == raws[i + 1];
    }
  }

  method DecodeBlock(block: bytes, limits: Limits) returns (r: Option<seq<Entry>>)
    ensures r.Some? <==> BlockAccepted(block, limits) && NoRuntimeNames(Parse(block, 0).value)
    ensures r.Some? ==> r.value == Project(Parse(block, 0).value)
  {
    var decoded := [];
    var position := 0;
    var count := 0;
    var previous: Option<Raw> := None;
    ghost var read := [];
    while position < |block|
      invariant GoodFront(block, read, position, limits)
      invariant count == |read| && previous == RustMetadata.LastOf(read)
      invariant decoded == Project(read)
      decreases |block| - position
    {
      count := count + 1;
      if count > limits.maxEntries {
        RustMetadata.BadFrontRefused(block, read, position, limits);
        return None;
      }
      var entry := RawAt(block, position);
      if entry.None? {
        RustMetadata.BadFrontRefused(block, read, position, limits);
        return None;
      }
      var (raw, end) := entry.value;
      if |raw.value| > limits.maxValueBytes {
        BadEntryRefused(block, read, position, limits);
        return None;
      }
      var ok := CheckEntry(previous, raw);
      if !ok {
        BadEntryRefused(block, read, position, limits);
        return None;
      }
      GoodEntryRead(block, read, position, limits);
      if KeyOf(raw).Some? {
        decoded := Put(decoded, Entry(KeyOf(raw).value, raw.value));
      }
      read := read + [raw];
      previous := Some(raw);
      position := end;
    }
    RustMetadata.ReadAll(block, read);
    return Some(decoded);
  }

  /** The front of a block, read and found in order. */
  ghost predicate GoodFront(block: bytes, read: seq<Raw>, position: nat, limits: Limits) {
    RustMetadata.ReadSoFar(block, read, position) && Acceptable(read, limits) && NoRuntimeNames(read)
  }

  ghost predicate GoodEntry(read: seq<Raw>, raw: Raw, limits: Limits) {
    && |raw.value| <= limits.maxValueBytes && KeyAllowed(raw) && !RuntimeName(raw)
    && (read != [] ==> Order(read[|read| - 1], raw) < 0)
  }

  lemma GoodEntryRead(block: bytes, read: seq<Raw>, position: nat, limits: Limits)
    requires GoodFront(block, read, position, limits) && |read| < limits.maxEntries && RawAt(block, position).Some?
    requires GoodEntry(read, RawAt(block, position).value.0, limits)
    ensures var (raw, end) := RawAt(block, position).value;
      && position < end && GoodFront(block, read + [raw], end, limits)
      && Project(read + [raw]) ==
           if KeyOf(raw).Some? then Put(Project(read), Entry(KeyOf(raw).value, raw.value)) else Project(read)
  {
    var (raw, end) := RawAt(block, position).value;
    RustMetadata.ReadMore(block, read, position);
    RustMetadata.AppendAcceptable(read, raw, limits);
    if KeyOf(raw).Some? {
      AppendProjects(read, raw);
    } else {
      FlatMapAppend(read, raw, Kept);
    }
  }

  lemma BadEntryRefused(block: bytes, read: seq<Raw>, position: nat, limits: Limits)
    requires GoodFront(block, read, position, limits) && RawAt(block, position).Some?
    requires !GoodEntry(read, RawAt(block, position).value.0, limits)
    ensures !(BlockAccepted(block, limits) && NoRuntimeNames(Parse(block, 0).value))
  {
    var (raw, end) := RawAt(block, position).value;
    RustMetadata.ReadMore(block, read, position);
    RustMetadata.AppendAcceptable(read, raw, limits);
    assert (read + [raw])[|read|] == raw;
    RuntimeNameRefused(block, read + [raw], end, limits);
  }

  lemma AppendProjects(read: seq<Raw>, raw: Raw)
    requires Ascending(read + [raw]) && KeyOf(raw).Some?
    requires forall i :: 0 <= i < |read + [raw]| ==> KeyAllowed((read + [raw])[i])
    ensures Put(Project(read), Entry(KeyOf(raw).value, raw.value)) == Project(read + [raw])
  {
    ProjectCanonical(read + [raw]);
    FlatMapAppend(read, raw, Kept);
    RustMetadata.InsertLast(Project(read), Entry(KeyOf(raw).value, raw.value));
    PutIsInsert(Project(read), Entry(KeyOf(raw).value, raw.value));
  }

  lemma RuntimeNameRefused(block: bytes, read: seq<Raw>, position: nat, limits: Limits)
    requires RustMetadata.ReadSoFar(block, read, position)
    requires !Acceptable(read, limits) || !NoRuntimeNames(read)
    ensures !(BlockAccepted(block, limits) && NoRuntimeNames(Parse(block, 0).value))
  {
    if !Acceptable(read, limits) {
      RustMetadata.BadFrontRefused(block, read, position, limits);
    } else {
      var i :| 0 <= i < |read| && RuntimeName(read[i]);
      assert block[0..position] == block[..position];
      ParseSkips(block, 0, read, position);
      assert Parse(block, 0).Some? ==> Parse(block, 0).value[i] == read[i];
    }
  }
}
