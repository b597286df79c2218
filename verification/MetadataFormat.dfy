/** The metadata block of a frame body, as both implementations use it
    (crates/moonlight-bridge-protocol/src/metadata.rs and MoonLightMetadata.java).

    A block is a sequence of raw entries. `Parse` is the reference reading of a block and
    `Acceptable` the rules an accepted block obeys, both free of cursors and of the order
    in which an implementation checks them. A `BTreeMap` or `TreeMap` of entries is the
    sequence of its entries in key order. */
module MetadataFormat {
  import opened Common
  import opened Wire

  const CRITICAL_BIT: int := 0x8000
  const USER_KEY_ID: int := 0x7fff
  const ENTRY_HEADER_LEN: int := 7

  /** maxBytes and maxValueBytes are unsigned 32-bit and maxEntries unsigned 16-bit numbers. */
  datatype Limits = Limits(maxBytes: nat, maxEntries: nat, maxValueBytes: nat)

  // ---------------------------------------------------------------------------
  // Raw entries

  datatype Raw = Raw(tag: nat, name: bytes, value: bytes)

  predicate Sized(raw: Raw) {
    raw.tag < 0x1_0000 && |raw.name| < 0x100 && |raw.value| < 0x1_0000_0000
  }

  predicate AllSized(raws: seq<Raw>) {
    forall i :: 0 <= i < |raws| ==> Sized(raws[i])
  }

  function KeyId(raw: Raw): nat {
    raw.tag % CRITICAL_BIT
  }

  predicate Critical(raw: Raw) {
    raw.tag >= CRITICAL_BIT
  }

  /** The bytes of one entry; a name longer than a byte can say is never `Sized`. */
  function EncodeRaw(raw: Raw): (s: bytes)
    ensures |s| == ENTRY_HEADER_LEN + |raw.name| + |raw.value|
  {
    BigEndian(raw.tag, 2) + [|raw.name| % 256] + BigEndian(|raw.value|, 4) + raw.name + raw.value
  }

  function EncodeRaws(raws: seq<Raw>): bytes {
    FlatMap(raws, EncodeRaw)
  }

  /** The entry whose header starts at `position`, and where the next one starts;
      `raw_entry` in Rust, the read of one entry in Java. */
  function RawAt(block: bytes, position: nat): Option<(Raw, nat)>
    requires position <= |block|
  {
    if |block| - position < ENTRY_HEADER_LEN then None
    else
      var nameStart := position + ENTRY_HEADER_LEN;
      var valueStart := nameStart + block[position + 2];
      var end := valueStart + Number(block[position + 3..nameStart]);
      if end > |block| then None
      else Some((Raw(Number(block[position..position + 2]), block[nameStart..valueStart], block[valueStart..end]), end))
  }

  lemma RawAtSound(block: bytes, position: nat)
    requires position <= |block| && RawAt(block, position).Some?
    ensures var (raw, end) := RawAt(block, position).value;
      position < end <= |block| && Sized(raw) && block[position..end] == EncodeRaw(raw)
  {
    var (raw, end) := RawAt(block, position).value;
    Capacities();
    NumberBound(block[position..position + 2]);
    NumberBound(block[position + 3..position + 7]);
    BigEndianOfNumber(block[position..position + 2]);
    BigEndianOfNumber(block[position + 3..position + 7]);
    var nameStart := position + ENTRY_HEADER_LEN;
    SliceJoin(block, position, position + 2, position + 3);
    SliceJoin(block, position, position + 3, nameStart);
    SliceJoin(block, position, nameStart, nameStart + |raw.name|);
    SliceJoin(block, position, nameStart + |raw.name|, end);
    assert block[position + 2..position + 3] == [block[position + 2]];
  }

  lemma EncodeRawParts(raw: Raw)
    ensures var s, n := EncodeRaw(raw), ENTRY_HEADER_LEN + |raw.name|;
      && s[0..2] == BigEndian(raw.tag, 2) && s[2] == |raw.name| % 256 && s[3..7] == BigEndian(|raw.value|, 4)
      && s[7..n] == raw.name && s[n..|s|] == raw.value
  {
  }

  lemma RawAtComplete(block: bytes, position: nat, raw: Raw, end: nat)
    requires position <= end <= |block| && Sized(raw) && block[position..end] == EncodeRaw(raw)
    ensures RawAt(block, position) == Some((raw, end))
  {
    Capacities();
    NumberOfBigEndian(raw.tag, 2);
    NumberOfBigEndian(|raw.value|, 4);
    EncodeRawParts(raw);
    var n := ENTRY_HEADER_LEN + |raw.name|;
    SliceOfSlice(block, position, end, 0, 2);
    SliceOfSlice(block, position, end, 3, 7);
    SliceOfSlice(block, position, end, 7, n);
    SliceOfSlice(block, position, end, n, end - position);
    assert block[position + 2] == block[position..end][2];
  }

  /** The raw entries of a block, if it is a whole number of them. */
  function Parse(block: bytes, position: nat): Option<seq<Raw>>
    requires position <= |block|
    decreases |block| - position
  {
    if position == |block| then Some([])
    else if RawAt(block, position).None? then None
    else
      RawAtSound(block, position);
      var (raw, end) := RawAt(block, position).value;
      var rest := Parse(block, end);
      if rest.None? then None else Some([raw] + rest.value)
  }

  lemma {:induction false} ParseSound(block: bytes, position: nat)
    requires position <= |block| && Parse(block, position).Some?
    ensures AllSized(Parse(block, position).value) && EncodeRaws(Parse(block, position).value) == block[position..]
    decreases |block| - position
  {
    if position < |block| {
      RawAtSound(block, position);
      var (raw, end) := RawAt(block, position).value;
      ParseSound(block, end);
      var rest := Parse(block, end).value;
      assert ([raw] + rest)[1..] == rest;
      SliceJoin(block, position, end, |block|);
    }
  }

  /** Reading entry by entry from the front agrees with `Parse`. */
  lemma {:induction false} ParseSkips(block: bytes, position: nat, raws: seq<Raw>, end: nat)
    requires position <= end <= |block| && AllSized(raws) && block[position..end] == EncodeRaws(raws)
    ensures Parse(block, position) ==
      if Parse(block, end).None? then None else Some(raws + Parse(block, end).value)
    decreases |raws|
  {
    if raws == [] {
      assert position == end;
      assert Parse(block, end).Some? ==> raws + Parse(block, end).value == Parse(block, end).value;
    } else {
      var middle := position + |EncodeRaw(raws[0])|;
      SplitFirst(block, position, raws, end, middle);
      RawAtComplete(block, position, raws[0], middle);
      ParseSkips(block, middle, raws[1..], end);
      PrependAssociates(raws, Parse(block, end));
    }
  }

  lemma PrependAssociates(raws: seq<Raw>, rest: Option<seq<Raw>>)
    requires raws != []
    ensures rest.Some? ==> [raws[0]] + (raws[1..] + rest.value) == raws + rest.value
  {
  }

  lemma SplitFirst(block: bytes, position: nat, raws: seq<Raw>, end: nat, middle: nat)
    requires position <= end <= |block| && raws != [] && block[position..end] == EncodeRaws(raws)
    requires middle == position + |EncodeRaw(raws[0])|
    ensures middle <= end && block[position..middle] == EncodeRaw(raws[0])
    ensures block[middle..end] == EncodeRaws(raws[1..])
  {
    var s := EncodeRaw(raws[0]);
    assert EncodeRaws(raws) == s + EncodeRaws(raws[1..]);
    assert block[position..middle] == block[position..end][..|s|];
    assert block[middle..end] == block[position..end][|s|..];
  }

  lemma ParseComplete(block: bytes, raws: seq<Raw>)
    requires AllSized(raws) && EncodeRaws(raws) == block
    ensures Parse(block, 0) == Some(raws)
  {
    assert block[0..|block|] == block;
    ParseSkips(block, 0, raws, |block|);
    assert raws + [] == raws;
  }

  // ---------------------------------------------------------------------------
  // The rules

  /** Order of two entries: key id first, then name. */
  function Order(a: Raw, b: Raw): int {
    if KeyId(a) != KeyId(b) then KeyId(a) - KeyId(b) else Compare(a.name, b.name)
  }

  predicate UserByte(b: byte) {
    ('a' as int <= b <= 'z' as int) || ('0' as int <= b <= '9' as int) ||
    b == '-' as int || b == '_' as int || b == '.' as int
  }

  predicate ValidUserKey(name: bytes) {
    0 < |name| <= 255 && forall i :: 0 <= i < |name| ==> UserByte(name[i])
  }

  predicate KnownReserved(id: int) {
    1 <= id <= 13
  }

  predicate KeyAllowed(raw: Raw) {
    if KeyId(raw) == USER_KEY_ID then ValidUserKey(raw.name)
    else raw.name == [] && (KnownReserved(KeyId(raw)) || !Critical(raw))
  }

  predicate Ascending(raws: seq<Raw>) {
    forall i :: 0 < i < |raws| ==> Order(raws[i - 1], raws[i]) < 0
  }

  predicate Acceptable(raws: seq<Raw>, limits: Limits) {
    && |raws| <= limits.maxEntries
    && (forall i :: 0 <= i < |raws| ==> |raws[i].value| <= limits.maxValueBytes && KeyAllowed(raws[i]))
    && Ascending(raws)
  }

  predicate BlockAccepted(block: bytes, limits: Limits) {
    Parse(block, 0).Some? && Acceptable(Parse(block, 0).value, limits)
  }

  function Announced(input: bytes): nat
    requires |input| >= 4
  {
    Number(input[..4])
  }

  /** The input starts with a length that its block and the byte limit can meet. */
  predicate Framed(input: bytes, limits: Limits) {
    |input| >= 4 && Announced(input) <= |input| - 4 && Announced(input) <= limits.maxBytes
  }

  function BlockOf(input: bytes, limits: Limits): bytes
    requires Framed(input, limits)
  {
    input[4..4 + Announced(input)]
  }

  function PayloadOf(input: bytes, limits: Limits): bytes
    requires Framed(input, limits)
  {
    input[4 + Announced(input)..]
  }

  predicate Accepted(input: bytes, limits: Limits) {
    Framed(input, limits) && BlockAccepted(BlockOf(input, limits), limits)
  }

  // ---------------------------------------------------------------------------
  // Owned metadata

  datatype Key = Reserved(id: int) | User(name: bytes)

  datatype Entry = Entry(key: Key, value: bytes)

  predicate ValidKey(key: Key) {
    match key
    case Reserved(id) => KnownReserved(id)
    case User(name) => ValidUserKey(name)
  }

  function TagOf(key: Key): nat
    requires ValidKey(key)
  {
    if key.Reserved? then CRITICAL_BIT + key.id else USER_KEY_ID
  }

  function NameOf(key: Key): bytes {
    if key.Reserved? then [] else key.name
  }

  /** The entry as written: reserved keys carry the critical bit, user keys their name. */
  function RawOf(entry: Entry): Raw
    requires ValidKey(entry.key)
  {
    Raw(TagOf(entry.key), NameOf(entry.key), entry.value)
  }

  /** The key of an accepted raw entry; an unknown reserved entry has none and is skipped. */
  function KeyOf(raw: Raw): Option<Key> {
    if KeyId(raw) == USER_KEY_ID then Some(User(raw.name))
    else if KnownReserved(KeyId(raw)) then Some(Reserved(KeyId(raw)))
    else None
  }

  function Kept(raw: Raw): seq<Entry> {
    if KeyOf(raw).Some? then [Entry(KeyOf(raw).value, raw.value)] else []
  }

  /** The entries an accepted block stands for. */
  function Project(raws: seq<Raw>): seq<Entry> {
    FlatMap(raws, Kept)
  }

  /** Order of keys, as `Ord` on the Rust key and `compareTo` on the Java key define it. */
  predicate KeyLess(a: Key, b: Key) {
    match (a, b)
    case (Reserved(x), Reserved(y)) => x < y
    case (Reserved(_), User(_)) => true
    case (User(_), Reserved(_)) => false
    case (User(x), User(y)) => Compare(x, y) < 0
  }

  /** What a map of entries holds: valid keys, in strictly ascending order. */
  predicate Canonical(m: seq<Entry>) {
    && (forall i :: 0 <= i < |m| ==> ValidKey(m[i].key))
    && (forall i, j :: 0 <= i < j < |m| ==> KeyLess(m[i].key, m[j].key))
  }

  function Lookup(m: seq<Entry>, key: Key): Option<bytes> {
    if m == [] then None else if m[0].key == key then Some(m[0].value) else Lookup(m[1..], key)
  }

  function RawsOf(m: seq<Entry>): (raws: seq<Raw>)
    requires forall i :: 0 <= i < |m| ==> ValidKey(m[i].key)
    ensures |raws| == |m| && forall i :: 0 <= i < |m| ==> raws[i] == RawOf(m[i])
  {
    seq(|m|, i requires 0 <= i < |m| => RawOf(m[i]))
  }

  predicate Writable(m: seq<Entry>) {
    Canonical(m) && forall i :: 0 <= i < |m| ==> |m[i].value| < 0x1_0000_0000
  }

  /** The encoded block of a map; `encode_prefix` and `encodePrefix` put its length in front. */
  function EncodeBlock(m: seq<Entry>): bytes
    requires Canonical(m)
  {
    EncodeRaws(RawsOf(m))
  }

  function EncodePrefix(m: seq<Entry>): bytes
    requires Canonical(m)
  {
    BigEndian(|EncodeBlock(m)|, 4) + EncodeBlock(m)
  }

  /** The first pass of both encoders. */
  method MeasureEntries(m: seq<Entry>) returns (encodedLen: nat)
    requires Canonical(m)
    ensures encodedLen == |EncodeBlock(m)|
  {
    ghost var raws := RawsOf(m);
    encodedLen := 0;
    for i := 0 to |m|
      invariant encodedLen == |EncodeRaws(raws[..i])|
    {
      EncodeNext(raws, i);
      encodedLen := encodedLen + ENTRY_HEADER_LEN + |NameOf(m[i].key)| + |m[i].value|;
    }
    assert raws[..|m|] == raws;
  }

  /** The second pass of both encoders. */
  method WriteEntries(m: seq<Entry>) returns (output: bytes)
    requires Canonical(m)
    ensures output == EncodeBlock(m)
  {
    ghost var raws := RawsOf(m);
    output := [];
    for i := 0 to |m|
      invariant output == EncodeRaws(raws[..i])
    {
      EncodeNext(raws, i);
      output := output + EncodeRaw(RawOf(m[i]));
    }
    assert raws[..|m|] == raws;
  }

  lemma EncodeNext(raws: seq<Raw>, i: nat)
    requires i < |raws|
    ensures EncodeRaws(raws[..i + 1]) == EncodeRaws(raws[..i]) + EncodeRaw(raws[i])
  {
    FlatMapAppend(raws[..i], raws[i], EncodeRaw);
    assert raws[..i + 1] == raws[..i] + [raws[i]];
  }

  // ---------------------------------------------------------------------------
  // Laws

  lemma OrderTransitive(a: Raw, b: Raw, c: Raw)
    requires Order(a, b) < 0 && Order(b, c) < 0
    ensures Order(a, c) < 0
  {
    if KeyId(a) == KeyId(b) == KeyId(c) {
      CompareTransitive(a.name, b.name, c.name);
    }
  }

  ghost predicate Below(key: Key, m: seq<Entry>) {
    forall i :: 0 <= i < |m| ==> KeyLess(key, m[i].key)
  }

  lemma ConsCanonical(entry: Entry, m: seq<Entry>)
    requires ValidKey(entry.key) && Canonical(m) && Below(entry.key, m)
    ensures Canonical([entry] + m)
  {
  }

  lemma KeyLessTotal(a: Key, b: Key)
    ensures KeyLess(a, b) || a == b || KeyLess(b, a)
  {
    if a.User? && b.User? {
      CompareAntisymmetric(b.name, a.name);
      CompareEqual(a.name, b.name);
    }
  }

  lemma KeyLessTransitive(a: Key, b: Key, c: Key)
    requires KeyLess(a, b) && KeyLess(b, c)
    ensures KeyLess(a, c)
  {
    if a.User? && b.User? && c.User? {
      CompareTransitive(a.name, b.name, c.name);
    }
  }

  lemma {:induction false} AscendingPairs(raws: seq<Raw>, i: nat, j: nat)
    requires Ascending(raws) && i < j < |raws|
    ensures Order(raws[i], raws[j]) < 0
    decreases j
  {
    if i < j - 1 {
      AscendingPairs(raws, i, j - 1);
      OrderTransitive(raws[i], raws[j - 1], raws[j]);
    }
  }

  lemma KeyLessIsOrder(a: Raw, b: Raw)
    requires KeyAllowed(a) && KeyAllowed(b) && KeyOf(a).Some? && KeyOf(b).Some?
    ensures Order(a, b) < 0 <==> KeyLess(KeyOf(a).value, KeyOf(b).value)
  {
  }

  lemma {:induction false} ProjectMembers(raws: seq<Raw>, k: nat) returns (i: nat)
    requires k < |Project(raws)|
    ensures i < |raws| && KeyOf(raws[i]) == Some(Project(raws)[k].key) && raws[i].value == Project(raws)[k].value
  {
    var head := if KeyOf(raws[0]).Some? then 1 else 0;
    if k < head {
      i := 0;
    } else {
      var j := ProjectMembers(raws[1..], k - head);
      i := j + 1;
    }
  }

  /** What an accepted block projects to is a map: valid keys, strictly ascending. */
  lemma {:induction false} ProjectCanonical(raws: seq<Raw>)
    requires Ascending(raws) && forall i :: 0 <= i < |raws| ==> KeyAllowed(raws[i])
    ensures Canonical(Project(raws))
  {
    if raws != [] {
      assert Ascending(raws[1..]) by {
        assert forall i :: 0 < i < |raws[1..]| ==> raws[1..][i - 1] == raws[i] && raws[1..][i] == raws[i + 1];
      }
      ProjectCanonical(raws[1..]);
      var rest := Project(raws[1..]);
      if KeyOf(raws[0]).Some? {
        forall k | 0 <= k < |rest| ensures KeyLess(KeyOf(raws[0]).value, rest[k].key) {
          var i := ProjectMembers(raws[1..], k);
          AscendingPairs(raws, 0, i + 1);
          KeyLessIsOrder(raws[0], raws[i + 1]);
        }
      }
    }
  }

  lemma {:induction false} ProjectOfRaws(m: seq<Entry>)
    requires forall i :: 0 <= i < |m| ==> ValidKey(m[i].key)
    ensures Project(RawsOf(m)) == m
  {
    if m != [] {
      ProjectOfRaws(m[1..]);
      assert RawsOf(m)[1..] == RawsOf(m[1..]);
      assert Kept(RawsOf(m)[0]) == [m[0]];
      assert m == [m[0]] + m[1..];
    }
  }

  predicate WithinLimits(m: seq<Entry>, limits: Limits)
    requires Writable(m)
  {
    && |EncodeBlock(m)| <= limits.maxBytes && |m| <= limits.maxEntries
    && forall i :: 0 <= i < |m| ==> |m[i].value| <= limits.maxValueBytes
  }

  lemma CanonicalAscends(m: seq<Entry>)
    requires Canonical(m)
    ensures Ascending(RawsOf(m)) && forall i :: 0 <= i < |m| ==> KeyAllowed(RawsOf(m)[i])
  {
    forall i | 0 < i < |m| ensures Order(RawsOf(m)[i - 1], RawsOf(m)[i]) < 0 {
      KeyLessIsOrder(RawOf(m[i - 1]), RawOf(m[i]));
    }
  }

  /** Reading back an encoded map: it is accepted exactly when it is within the limits, and
      then gives the same map and the payload that followed it. */
  lemma RoundTrip(m: seq<Entry>, payload: bytes, limits: Limits)
    requires Writable(m) && |EncodeBlock(m)| < 0x1_0000_0000
    ensures Accepted(EncodePrefix(m) + payload, limits) <==> WithinLimits(m, limits)
    ensures Accepted(EncodePrefix(m) + payload, limits) ==>
      var input := EncodePrefix(m) + payload;
      && BlockOf(input, limits) == EncodeBlock(m)
      && Project(Parse(EncodeBlock(m), 0).value) == m
      && PayloadOf(input, limits) == payload
  {
    var input := EncodePrefix(m) + payload;
    var block := EncodeBlock(m);
    Capacities();
    NumberOfBigEndian(|block|, 4);
    assert input[..4] == BigEndian(|block|, 4);
    assert Announced(input) == |block| && input[4..4 + |block|] == block && input[4 + |block|..] == payload;
    assert AllSized(RawsOf(m));
    ParseComplete(block, RawsOf(m));
    CanonicalAscends(m);
    ProjectOfRaws(m);
  }

  /** An accepted block is exactly what its map encodes to if and only if it holds no unknown
      entry and every tag carries the critical bit the encoder would give it. */
  lemma ReencodesIff(block: bytes, limits: Limits)
    requires BlockAccepted(block, limits)
    ensures Canonical(Project(Parse(block, 0).value))
    ensures EncodeBlock(Project(Parse(block, 0).value)) == block <==>
      forall i :: 0 <= i < |Parse(block, 0).value| ==> Normal(Parse(block, 0).value[i])
  {
    var raws := Parse(block, 0).value;
    ProjectCanonical(raws);
    if forall i :: 0 <= i < |raws| ==> Normal(raws[i]) {
      NormalRaws(raws);
      ParseSound(block, 0);
      assert block[0..] == block;
    }
    if EncodeBlock(Project(raws)) == block {
      ParseSound(block, 0);
      assert block[0..] == block;
      ReencodedIsNormal(raws);
    }
  }

  lemma EncodeRawsInjective(a: seq<Raw>, b: seq<Raw>)
    requires AllSized(a) && AllSized(b) && EncodeRaws(a) == EncodeRaws(b)
    ensures a == b
  {
    ParseComplete(EncodeRaws(a), a);
    ParseComplete(EncodeRaws(b), b);
  }

  lemma ReencodedIsNormal(raws: seq<Raw>)
    requires AllSized(raws) && Canonical(Project(raws)) && EncodeRaws(RawsOf(Project(raws))) == EncodeRaws(raws)
    ensures forall i :: 0 <= i < |raws| ==> Normal(raws[i])
  {
    var m := Project(raws);
    forall i | 0 <= i < |m| ensures Sized(RawsOf(m)[i]) {
      var j := ProjectMembers(raws, i);
      assert Sized(raws[j]) && RawsOf(m)[i] == RawOf(m[i]);
    }
    EncodeRawsInjective(RawsOf(m), raws);
    forall i | 0 <= i < |raws| ensures Normal(raws[i]) {
      assert raws[i] == RawOf(m[i]);
    }
  }

  predicate Normal(raw: Raw) {
    KeyOf(raw).Some? && ValidKey(KeyOf(raw).value) && raw.tag == TagOf(KeyOf(raw).value) &&
      raw.name == NameOf(KeyOf(raw).value)
  }

  lemma {:induction false} NormalRaws(raws: seq<Raw>)
    requires forall i :: 0 <= i < |raws| ==> Normal(raws[i])
    ensures forall i :: 0 <= i < |Project(raws)| ==> ValidKey(Project(raws)[i].key)
    ensures RawsOf(Project(raws)) == raws
  {
    if raws != [] {
      NormalRaws(raws[1..]);
      var m := Project(raws);
      assert m == Kept(raws[0]) + Project(raws[1..]);
      assert m[0] == Entry(KeyOf(raws[0]).value, raws[0].value) && m[1..] == Project(raws[1..]);
      assert RawsOf(m)[1..] == RawsOf(m[1..]) == raws[1..];
      assert RawsOf(m)[0] == raws[0];
    }
  }
}
