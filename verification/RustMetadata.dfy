/** The Rust side of the metadata block (crates/moonlight-bridge-protocol/src/metadata.rs):
    the encoder, the validating cursor and the three readers of a validated block, each
    proved against the reference reading of `MetadataFormat`. */
module RustMetadata {
  import opened Common
  import opened Wire
  import opened MetadataFormat

  const U16_MAX: int := 0xFFFF
  const U32_MAX: int := 0xFFFF_FFFF

  datatype ProtocolError =
    | InvalidMetadataLength(announced: nat, available: nat)
    | MetadataTooLarge(length: nat)
    | MetadataValueTooLarge(length: nat)
    | TooManyMetadataEntries(count: nat)
    | InvalidMetadataEntryLength
    | DuplicateMetadataKey
    | NonCanonicalMetadataOrder
    | InvalidUserMetadataKey
    | UnknownCriticalMetadataKey(id: nat)

  // ---------------------------------------------------------------------------
  // Encoding

  /** `encode_prefix`. */
  method EncodeMetadata(m: seq<Entry>) returns (r: Result<bytes, ProtocolError>)
    requires Canonical(m)
    ensures r == if |EncodeBlock(m)| <= U32_MAX then Ok(EncodePrefix(m)) else Err(MetadataTooLarge(U32_MAX))
  {
    var encodedLen := MeasureEntries(m);
    if encodedLen > U32_MAX {
      return Err(MetadataTooLarge(U32_MAX));
    }
    var block := WriteEntries(m);
    return Ok(BigEndian(encodedLen, 4) + block);
  }

  // ---------------------------------------------------------------------------
  // Validation

  function LastOf(raws: seq<Raw>): Option<Raw> {
    if raws == [] then None else Some(raws[|raws| - 1])
  }

  predicate EntryFault(previous: Option<Raw>, raw: Raw, limits: Limits, error: ProtocolError) {
    match error
    case MetadataValueTooLarge(n) => n == |raw.value| > limits.maxValueBytes
    case DuplicateMetadataKey => previous.Some? && Order(previous.value, raw) == 0
    case NonCanonicalMetadataOrder => previous.Some? && Order(previous.value, raw) > 0
    case InvalidUserMetadataKey => if KeyId(raw) == USER_KEY_ID then !ValidUserKey(raw.name) else raw.name != []
    case UnknownCriticalMetadataKey(id) => id == KeyId(raw) && Critical(raw) && !KnownReserved(id) && id != USER_KEY_ID
    case _ => false
  }

  /** The entries `read` from the front of a block show why it was refused. */
  ghost predicate BlockFault(block: bytes, limits: Limits, error: ProtocolError, read: seq<Raw>) {
    var length := |EncodeRaws(read)|;
    && AllSized(read) && EncodeRaws(read) <= block
    && match error
       case TooManyMetadataEntries(_) => |read| == limits.maxEntries && length < |block|
       case InvalidMetadataEntryLength => length < |block| && RawAt(block, length).None?
       case _ => read != [] && EntryFault(LastOf(read[..|read| - 1]), read[|read| - 1], limits, error)
  }

  ghost predicate Explains(input: bytes, limits: Limits, error: ProtocolError, read: seq<Raw>) {
    if |input| < 4 then error == InvalidMetadataLength(0, |input|)
    else if Announced(input) > |input| - 4 then error == InvalidMetadataLength(Announced(input), |input| - 4)
    else if Announced(input) > limits.maxBytes then error == MetadataTooLarge(Announced(input))
    else BlockFault(BlockOf(input, limits), limits, error, read)
  }

  /** What has been read so far, up to `position`. */
  ghost predicate ReadSoFar(block: bytes, read: seq<Raw>, position: nat) {
    position <= |block| && AllSized(read) && EncodeRaws(read) == block[..position]
  }

  lemma ReadMore(block: bytes, read: seq<Raw>, position: nat)
    requires ReadSoFar(block, read, position) && RawAt(block, position).Some?
    ensures var (raw, end) := RawAt(block, position).value;
      position < end && ReadSoFar(block, read + [raw], end)
  {
    RawAtSound(block, position);
    var (raw, end) := RawAt(block, position).value;
    FlatMapAppend(read, raw, EncodeRaw);
    SliceJoin(block, 0, position, end);
  }

  /** If the front of a block breaks the rules, the block is refused. */
  lemma BadFrontRefused(block: bytes, read: seq<Raw>, position: nat, limits: Limits)
    requires ReadSoFar(block, read, position)
    requires !Acceptable(read, limits) || (|read| >= limits.maxEntries && position < |block|) ||
             (position < |block| && RawAt(block, position).None?)
    ensures !BlockAccepted(block, limits)
  {
    assert block[0..position] == block[..position];
    ParseSkips(block, 0, read, position);
    if BlockAccepted(block, limits) {
      FrontAcceptable(read, Parse(block, position).value, limits);
    }
  }

  lemma FrontAcceptable(front: seq<Raw>, back: seq<Raw>, limits: Limits)
    requires Acceptable(front + back, limits)
    ensures Acceptable(front, limits)
  {
    var raws := front + back;
    assert forall i :: 0 <= i < |front| ==> front[i] == raws[i];
    forall i | 0 < i < |front| ensures Order(front[i - 1], front[i]) < 0 {
      assert Order(raws[i - 1], raws[i]) < 0;
    }
  }

  lemma AppendAcceptable(read: seq<Raw>, raw: Raw, limits: Limits)
    requires Acceptable(read, limits)
    ensures Acceptable(read + [raw], limits) <==>
      && |read| < limits.maxEntries && |raw.value| <= limits.maxValueBytes && KeyAllowed(raw)
      && (read != [] ==> Order(read[|read| - 1], raw) < 0)
  {
    var more := read + [raw];
    assert forall i :: 0 <= i < |read| ==> more[i] == read[i];
    assert more[|read|] == raw;
    if read != [] && Acceptable(more, limits) {
      assert Order(more[|read| - 1], more[|read|]) < 0;
    }
  }

  /** The checks on one entry after its lengths: value limit, order, key. */
  method CheckEntry(previous: Option<Raw>, raw: Raw, limits: Limits) returns (error: Option<ProtocolError>)
    ensures error.None? <==>
      && |raw.value| <= limits.maxValueBytes && KeyAllowed(raw)
      && (previous.Some? ==> Order(previous.value, raw) < 0)
    ensures error.Some? ==> EntryFault(previous, raw, limits, error.value)
  {
    if |raw.value| > limits.maxValueBytes {
      return Some(MetadataValueTooLarge(|raw.value|));
    }
    if previous.Some? {
      var order := Order(previous.value, raw);
      if order >= 0 {
        return Some(if order == 0 then DuplicateMetadataKey else NonCanonicalMetadataOrder);
      }
    }
    if KeyId(raw) == USER_KEY_ID {
      if !ValidUserKey(raw.name) {
        return Some(InvalidUserMetadataKey);
      }
    } else {
      if raw.name != [] {
        return Some(InvalidUserMetadataKey);
      }
      if !KnownReserved(KeyId(raw)) && Critical(raw) {
        return Some(UnknownCriticalMetadataKey(KeyId(raw)));
      }
    }
    return None;
  }

  method Validate(input: bytes, limits: Limits) returns (r: Result<(bytes, bytes), ProtocolError>, ghost read: seq<Raw>)
    requires limits.maxEntries <= U16_MAX
    ensures r.Ok? <==> Accepted(input, limits)
    ensures r.Ok? ==> r.value == (BlockOf(input, limits), PayloadOf(input, limits))
    ensures r.Err? ==> Explains(input, limits, r.error, read)
  {
    read := [];
    if |input| < 4 {
      return Err(InvalidMetadataLength(0, |input|)), read;
    }
    var announced := Number(input[..4]);
    var available := |input| - 4;
    if announced > available {
      return Err(InvalidMetadataLength(announced, available)), read;
    }
    if announced > limits.maxBytes {
      return Err(MetadataTooLarge(announced)), read;
    }
    var block := input[4..4 + announced];
    var refused;
    refused, read := ValidateBlock(block, limits);
    r := if refused.None? then Ok((block, input[4 + announced..])) else Err(refused.value);
  }

  method ValidateBlock(block: bytes, limits: Limits) returns (refused: Option<ProtocolError>, ghost read: seq<Raw>)
    requires limits.maxEntries <= U16_MAX
    ensures refused.None? <==> BlockAccepted(block, limits)
    ensures refused.Some? ==> BlockFault(block, limits, refused.value, read)
  {
    read := [];
    var position := 0;
    var count := 0;
    var previous: Option<Raw> := None;
    while position < |block|
      invariant ReadSoFar(block, read, position) && Acceptable(read, limits)
      invariant count == |read| <= limits.maxEntries
      invariant previous == LastOf(read)
      decreases |block| - position
    {
      if count == U16_MAX || count + 1 > limits.maxEntries {
        BadFrontRefused(block, read, position, limits);
        FrontLength(block, read, position);
        return Some(TooManyMetadataEntries(if count == U16_MAX then U16_MAX else count + 1)), read;
      }
      count := count + 1;
      var entry := RawAt(block, position);
      if entry.None? {
        BadFrontRefused(block, read, position, limits);
        FrontLength(block, read, position);
        return Some(InvalidMetadataEntryLength), read;
      }
      var (raw, end) := entry.value;
      var fault := CheckEntry(previous, raw, limits);
      if fault.Some? {
        FaultRefuses(block, limits, read, position, fault.value);
        return fault, read + [raw];
      }
      ReadMore(block, read, position);
      AppendAcceptable(read, raw, limits);
      read := read + [raw];
      previous := Some(raw);
      position := end;
    }
    assert block[..position] == block;
    ParseComplete(block, read);
    return None, read;
  }

  lemma FrontLength(block: bytes, read: seq<Raw>, position: nat)
    requires ReadSoFar(block, read, position)
    ensures |EncodeRaws(read)| == position && EncodeRaws(read) <= block
  {
  }

  lemma FaultRefuses(block: bytes, limits: Limits, read: seq<Raw>, position: nat, fault: ProtocolError)
    requires ReadSoFar(block, read, position) && Acceptable(read, limits) && RawAt(block, position).Some?
    requires EntryFault(LastOf(read), RawAt(block, position).value.0, limits, fault)
    ensures !BlockAccepted(block, limits) && BlockFault(block, limits, fault, read + [RawAt(block, position).value.0])
  {
    var (raw, end) := RawAt(block, position).value;
    var more := read + [raw];
    ReadMore(block, read, position);
    AppendAcceptable(read, raw, limits);
    assert !Acceptable(more, limits) by { FaultyEntry(LastOf(read), raw, limits, fault); }
    BadFrontRefused(block, more, end, limits);
    FrontLength(block, more, end);
    assert more[..|more| - 1] == read && more[|more| - 1] == raw;
  }

  lemma FaultyEntry(previous: Option<Raw>, raw: Raw, limits: Limits, fault: ProtocolError)
    requires EntryFault(previous, raw, limits, fault)
    ensures |raw.value| > limits.maxValueBytes || !KeyAllowed(raw) ||
      (previous.Some? && Order(previous.value, raw) >= 0)
  {
  }

  // ---------------------------------------------------------------------------
  // Reading a validated block

  /** `BTreeMap` insertion; nothing if the key is present. */
  function Insert(m: seq<Entry>, entry: Entry): Option<seq<Entry>> {
    if m == [] || KeyLess(entry.key, m[0].key) then Some([entry] + m)
    else if m[0].key == entry.key then None
    else
      var rest := Insert(m[1..], entry);
      if rest.None? then None else Some([m[0]] + rest.value)
  }

  lemma {:induction false} InsertLast(m: seq<Entry>, entry: Entry)
    requires Canonical(m + [entry])
    ensures Insert(m, entry) == Some(m + [entry])
  {
    if m == [] {
      assert [entry] + m == m + [entry];
    } else {
      assert (m + [entry])[0] == m[0] && (m + [entry])[|m|] == entry;
      KeyLessAsymmetric(m[0].key, entry.key);
      assert m[1..] + [entry] == (m + [entry])[1..];
      InsertLast(m[1..], entry);
      assert [m[0]] + (m[1..] + [entry]) == m + [entry];
    }
  }

  /** Insertion keeps a map a map, adds the entry and nothing else, and fails exactly on a
      key that is present. */
  lemma {:induction false} InsertMeans(m: seq<Entry>, entry: Entry)
    requires Canonical(m) && ValidKey(entry.key)
    ensures Insert(m, entry).None? <==> exists i :: 0 <= i < |m| && m[i].key == entry.key
    ensures Insert(m, entry).Some? ==>
      && Canonical(Insert(m, entry).value)
      && forall e :: e in Insert(m, entry).value <==> e in m || e == entry
  {
    if m != [] {
      assert m == [m[0]] + m[1..];
      if KeyLess(entry.key, m[0].key) {
        InsertFirst(m, entry);
      } else if m[0].key != entry.key {
        KeyLessTotal(m[0].key, entry.key);
        InsertMeans(m[1..], entry);
        if Insert(m, entry).Some? {
          var rest := Insert(m[1..], entry).value;
          forall i | 0 <= i < |rest| ensures KeyLess(m[0].key, rest[i].key) {
            assert rest[i] in rest;
          }
          ConsCanonical(m[0], rest);
        } else {
          var i :| 0 <= i < |m[1..]| && m[1..][i].key == entry.key;
          assert m[i + 1].key == entry.key;
        }
      }
    }
  }

  lemma InsertFirst(m: seq<Entry>, entry: Entry)
    requires Canonical(m) && ValidKey(entry.key) && m != [] && KeyLess(entry.key, m[0].key)
    ensures Canonical([entry] + m) && forall i :: 0 <= i < |m| ==> m[i].key != entry.key
  {
    forall i | 0 <= i < |m| ensures KeyLess(entry.key, m[i].key) && m[i].key != entry.key {
      if i > 0 { KeyLessTransitive(entry.key, m[0].key, m[i].key); }
      KeyLessAsymmetric(entry.key, m[i].key);
    }
    ConsCanonical(entry, m);
  }

  lemma KeyLessAsymmetric(a: Key, b: Key)
    requires KeyLess(a, b)
    ensures !KeyLess(b, a) && a != b
  {
    if a.User? && b.User? {
      CompareAntisymmetric(a.name, b.name);
      CompareEqual(a.name, b.name);
    }
  }

  /** Where a reader of an accepted block is: behind `read`, with `Parse(block, position)` to come. */
  lemma Onward(block: bytes, limits: Limits, read: seq<Raw>, position: nat)
    requires BlockAccepted(block, limits) && ReadSoFar(block, read, position) && position < |block|
    ensures RawAt(block, position).Some?
    ensures var raws := Parse(block, 0).value;
      |read| < |raws| && raws[|read|] == RawAt(block, position).value.0 && raws[..|read|] == read
  {
    assert block[0..position] == block[..position];
    ParseSkips(block, 0, read, position);
  }

  lemma ReadAll(block: bytes, read: seq<Raw>)
    requires ReadSoFar(block, read, |block|)
    ensures Parse(block, 0) == Some(read)
  {
    assert block[..|block|] == block;
    ParseComplete(block, read);
  }

  lemma NextAcceptable(raws: seq<Raw>, i: nat, limits: Limits)
    requires Acceptable(raws, limits) && i < |raws|
    ensures Acceptable(raws[..i + 1], limits)
  {
  }

  lemma NextEntryAppends(block: bytes, limits: Limits, read: seq<Raw>, position: nat)
    requires BlockAccepted(block, limits) && ReadSoFar(block, read, position) && position < |block|
    requires RawAt(block, position).Some? && KeyOf(RawAt(block, position).value.0).Some?
    ensures var raw := RawAt(block, position).value.0;
      Insert(Project(read), Entry(KeyOf(raw).value, raw.value)) == Some(Project(read + [raw]))
  {
    var raw := RawAt(block, position).value.0;
    Onward(block, limits, read, position);
    var raws := Parse(block, 0).value;
    NextAcceptable(raws, |read|, limits);
    assert raws[..|read| + 1] == read + [raw];
    ProjectCanonical(read + [raw]);
    FlatMapAppend(read, raw, Kept);
    InsertLast(Project(read), Entry(KeyOf(raw).value, raw.value));
  }

  /** On a block that validation accepted, under whatever limits, this never fails. */
  method IntoMetadata(block: bytes, ghost limits: Limits) returns (r: Result<seq<Entry>, ProtocolError>)
    ensures BlockAccepted(block, limits) ==> r == Ok(Project(Parse(block, 0).value)) && Canonical(r.value)
  {
    var metadata := [];
    var position := 0;
    ghost var read := [];
    while position < |block|
      invariant ReadSoFar(block, read, position)
      invariant BlockAccepted(block, limits) ==> metadata == Project(read)
      decreases |block| - position
    {
      var entry := RawAt(block, position);
      if entry.None? {
        BadFrontRefused(block, read, position, limits);
        return Err(InvalidMetadataEntryLength);
      }
      var (raw, end) := entry.value;
      ReadMore(block, read, position);
      FlatMapAppend(read, raw, Kept);
      if KeyOf(raw).Some? {
        var inserted := Insert(metadata, Entry(KeyOf(raw).value, raw.value));
        if BlockAccepted(block, limits) {
          NextEntryAppends(block, limits, read, position);
        }
        if inserted.None? {
          return Err(DuplicateMetadataKey);
        }
        metadata := inserted.value;
      }
      read := read + [raw];
      position := end;
    }
    ReadAll(block, read);
    if BlockAccepted(block, limits) {
      ProjectCanonical(read);
    }
    return Ok(metadata);
  }

  function ReservedOf(entry: Entry): seq<(int, bytes)> {
    if entry.key.Reserved? then [(entry.key.id, entry.value)] else []
  }

  /** All items of the `reserved_entries` iterator. On an accepted block they are the
      reserved entries of the owned map, in order, none missing. */
  method ReservedEntries(block: bytes, ghost limits: Limits) returns (items: seq<(int, bytes)>)
    ensures BlockAccepted(block, limits) ==> items == FlatMap(Project(Parse(block, 0).value), ReservedOf)
  {
    items := [];
    var position := 0;
    ghost var read := [];
    while position < |block|
      invariant ReadSoFar(block, read, position) && items == FlatMap(Project(read), ReservedOf)
      decreases |block| - position
    {
      var entry := RawAt(block, position);
      if entry.None? {
        BadFrontRefused(block, read, position, limits);
        return;
      }
      var (raw, end) := entry.value;
      ReadMore(block, read, position);
      FlatMapAppend(read, raw, Kept);
      FlatMapConcat(Project(read), Kept(raw), ReservedOf);
      if KnownReserved(KeyId(raw)) {
        items := items + [(KeyId(raw), raw.value)];
        FlatMapAppend([], Kept(raw)[0], ReservedOf);
      }
      read := read + [raw];
      position := end;
    }
    ReadAll(block, read);
  }

  /** Entries with another key id do not matter to a lookup. */
  lemma {:induction false} LookupSkips(raws: seq<Raw>, wanted: int, i: nat)
    requires KnownReserved(wanted) && i <= |raws| && forall j :: 0 <= j < i ==> KeyId(raws[j]) != wanted
    ensures Lookup(Project(raws), Reserved(wanted)) == Lookup(Project(raws[i..]), Reserved(wanted))
    decreases i
  {
    if i > 0 {
      LookupSkips(raws[1..], wanted, i - 1);
      assert raws[1..][i - 1..] == raws[i..];
      assert Project(raws) == Kept(raws[0]) + Project(raws[1..]);
      if KeyOf(raws[0]).Some? {
        assert Project(raws)[1..] == Project(raws[1..]);
      } else {
        assert Project(raws) == Project(raws[1..]);
      }
    } else {
      assert raws[0..] == raws;
    }
  }

  lemma LookupHit(raws: seq<Raw>, wanted: int, i: nat)
    requires KnownReserved(wanted) && i < |raws| && KeyId(raws[i]) == wanted
    requires forall j :: 0 <= j < i ==> KeyId(raws[j]) != wanted
    ensures Lookup(Project(raws), Reserved(wanted)) == Some(raws[i].value)
  {
    LookupSkips(raws, wanted, i);
    assert Project(raws[i..]) == Kept(raws[i]) + Project(raws[i..][1..]);
  }

  lemma LookupMiss(raws: seq<Raw>, wanted: int, i: nat)
    requires KnownReserved(wanted) && Ascending(raws) && i <= |raws|
    requires i < |raws| ==> KeyId(raws[i]) > wanted
    requires forall j :: 0 <= j < i ==> KeyId(raws[j]) != wanted
    ensures Lookup(Project(raws), Reserved(wanted)) == None
  {
    forall j | i <= j < |raws| ensures KeyId(raws[j]) != wanted {
      if i < j { AscendingPairs(raws, i, j); }
    }
    LookupSkips(raws, wanted, |raws|);
  }

  /** The lookup with its early exit finds on an accepted block what the owned map holds. */
  method GetReserved(block: bytes, wanted: int, ghost limits: Limits) returns (value: Option<bytes>)
    requires KnownReserved(wanted)
    ensures BlockAccepted(block, limits) ==> value == Lookup(Project(Parse(block, 0).value), Reserved(wanted))
  {
    var position := 0;
    ghost var read := [];
    while position < |block|
      invariant ReadSoFar(block, read, position)
      invariant forall j :: 0 <= j < |read| ==> KeyId(read[j]) != wanted
      decreases |block| - position
    {
      var entry := RawAt(block, position);
      if entry.None? {
        BadFrontRefused(block, read, position, limits);
        return None;
      }
      var (raw, end) := entry.value;
      if BlockAccepted(block, limits) {
        Onward(block, limits, read, position);
        LookupHere(Parse(block, 0).value, wanted, |read|);
      }
      if KeyId(raw) == wanted {
        return Some(raw.value);
      }
      if KeyId(raw) > wanted {
        return None;
      }
      ReadMore(block, read, position);
      read := read + [raw];
      position := end;
    }
    ReadAll(block, read);
    LookupSkips(read, wanted, |read|);
    return None;
  }

  lemma LookupHere(raws: seq<Raw>, wanted: int, i: nat)
    requires KnownReserved(wanted) && Ascending(raws) && i < |raws|
    requires forall j :: 0 <= j < i ==> KeyId(raws[..i][j]) != wanted
    ensures KeyId(raws[i]) == wanted ==> Lookup(Project(raws), Reserved(wanted)) == Some(raws[i].value)
    ensures KeyId(raws[i]) > wanted ==> Lookup(Project(raws), Reserved(wanted)) == None
  {
    assert forall j :: 0 <= j < i ==> raws[..i][j] == raws[j];
    if KeyId(raws[i]) == wanted {
      LookupHit(raws, wanted, i);
    } else if KeyId(raws[i]) > wanted {
      LookupMiss(raws, wanted, i);
    }
  }

  /** `Metadata::decode`. */
  method Decode(input: bytes, limits: Limits) returns (r: Result<(seq<Entry>, bytes), ProtocolError>)
    requires limits.maxEntries <= U16_MAX
    ensures r.Ok? <==> Accepted(input, limits)
    ensures r.Ok? ==> r.value == (Project(Parse(BlockOf(input, limits), 0).value), PayloadOf(input, limits))
  {
    var validated, _ := Validate(input, limits);
    if validated.Err? {
      return Err(validated.error);
    }
    var (block, payload) := validated.value;
    var metadata := IntoMetadata(block, limits);
    return Ok((metadata.value, payload));
  }
}
