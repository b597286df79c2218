/** The request metadata the Java client writes (MoonLightMetadata.java,
    `requestPrefixLength` and `writeRequestPrefix`): the user's entries and up to four of the
    runtime's, merged while writing. Proved to be the plain encoding of the union map. */
module RequestPrefix {
  import opened Common
  import opened Wire
  import opened MetadataFormat
  import opened JavaMetadata
  import RustMetadata

  datatype TraceContext = TraceContext(traceId: bytes, parentSpanId: bytes, sampled: bool)

  predicate ValidTrace(trace: TraceContext) {
    |trace.traceId| == 16 && |trace.parentSpanId| == 8
  }

  const TRACE_CONTEXT_LEN: int := 25

  function TraceBytes(trace: TraceContext): bytes {
    trace.traceId + trace.parentSpanId + [if trace.sampled then 1 else 0]
  }

  /** What the runtime adds to a request: always a deadline, a trace context if there is one,
      and the codec with the original length if the body is compressed. */
  datatype Runtime = Runtime(timeoutMillis: nat, trace: Option<TraceContext>, zstd: bool, originalLength: nat)

  predicate ValidRuntime(r: Runtime) {
    && 0 < r.timeoutMillis <= INT_MAX && r.originalLength <= INT_MAX
    && (r.trace.Some? ==> ValidTrace(r.trace.value))
  }

  const DEADLINE: int := 1
  const TRACE: int := 2
  const CODEC: int := 6
  const ORIGINAL_LENGTH: int := 7

  const REQUEST_KEYS: seq<int> := [DEADLINE, TRACE, CODEC, ORIGINAL_LENGTH]

  /** `requestValueLength`: zero for a key this request does not carry. */
  function ValueLength(key: int, r: Runtime): nat {
    if key == DEADLINE then 4
    else if key == TRACE then (if r.trace.Some? then TRACE_CONTEXT_LEN else 0)
    else if key == CODEC then (if r.zstd then 1 else 0)
    else if key == ORIGINAL_LENGTH then (if r.zstd then 4 else 0)
    else 0
  }

  /** `writeRequestValue`. */
  function Value(key: int, r: Runtime): bytes {
    if key == DEADLINE then BigEndian(r.timeoutMillis, 4)
    else if key == TRACE && r.trace.Some? then TraceBytes(r.trace.value)
    else if key == CODEC then [1]
    else BigEndian(r.originalLength, 4)
  }

  /** The runtime's entries from the k-th request key on. */
  function RuntimeFrom(k: nat, r: Runtime): seq<Entry>
    requires k <= 4
    decreases 4 - k
  {
    if k == 4 then []
    else if ValueLength(REQUEST_KEYS[k], r) == 0 then RuntimeFrom(k + 1, r)
    else [Entry(Reserved(REQUEST_KEYS[k]), Value(REQUEST_KEYS[k], r))] + RuntimeFrom(k + 1, r)
  }

  function RuntimeEntries(r: Runtime): seq<Entry> {
    RuntimeFrom(0, r)
  }

  // ---------------------------------------------------------------------------
  // The union of two maps

  predicate Disjoint(m: seq<Entry>, extra: seq<Entry>) {
    forall i, j :: 0 <= i < |m| && 0 <= j < |extra| ==> m[i].key != extra[j].key
  }

  /** Merge of two entry sequences by key. */
  function Merge(m: seq<Entry>, extra: seq<Entry>): seq<Entry> {
    if m == [] then extra
    else if extra == [] then m
    else if KeyLess(m[0].key, extra[0].key) then [m[0]] + Merge(m[1..], extra)
    else [extra[0]] + Merge(m, extra[1..])
  }

  lemma {:induction false} MergeMembers(m: seq<Entry>, extra: seq<Entry>, entry: Entry)
    ensures entry in Merge(m, extra) <==> entry in m || entry in extra
    decreases |m| + |extra|
  {
    if m != [] && extra != [] {
      assert m == [m[0]] + m[1..] && extra == [extra[0]] + extra[1..];
      if KeyLess(m[0].key, extra[0].key) {
        MergeMembers(m[1..], extra, entry);
      } else {
        MergeMembers(m, extra[1..], entry);
      }
    }
  }

  lemma {:induction false} MergeBelow(key: Key, m: seq<Entry>, extra: seq<Entry>)
    requires Below(key, m) && Below(key, extra)
    ensures Below(key, Merge(m, extra))
  {
    forall i | 0 <= i < |Merge(m, extra)| ensures KeyLess(key, Merge(m, extra)[i].key) {
      MergeMembers(m, extra, Merge(m, extra)[i]);
    }
  }

  lemma HeadBelow(m: seq<Entry>, extra: seq<Entry>)
    requires Canonical(m) && Canonical(extra) && m != [] && extra != [] && KeyLess(m[0].key, extra[0].key)
    ensures Below(m[0].key, m[1..]) && Below(m[0].key, extra)
  {
    forall i | 0 <= i < |extra| ensures KeyLess(m[0].key, extra[i].key) {
      if i > 0 { KeyLessTransitive(m[0].key, extra[0].key, extra[i].key); }
    }
  }

  /** The merge of two maps without a common key is a map. */
  lemma {:induction false} MergeCanonical(m: seq<Entry>, extra: seq<Entry>)
    requires Canonical(m) && Canonical(extra) && Disjoint(m, extra)
    ensures Canonical(Merge(m, extra))
    decreases |m| + |extra|
  {
    if m != [] && extra != [] {
      if KeyLess(m[0].key, extra[0].key) {
        MergeCanonical(m[1..], extra);
        HeadBelow(m, extra);
        MergeBelow(m[0].key, m[1..], extra);
        ConsCanonical(m[0], Merge(m[1..], extra));
      } else {
        KeyLessTotal(m[0].key, extra[0].key);
        MergeCanonical(m, extra[1..]);
        HeadBelow(extra, m);
        MergeBelow(extra[0].key, m, extra[1..]);
        ConsCanonical(extra[0], Merge(m, extra[1..]));
      }
    }
  }

  /** A map is determined by its entries, so the merge is the union. */
  lemma {:induction false} CanonicalUnique(a: seq<Entry>, b: seq<Entry>)
    requires Canonical(a) && Canonical(b) && forall e :: e in a <==> e in b
    ensures a == b
  {
    assert a != [] ==> a[0] in a;
    assert b != [] ==> b[0] in b;
    if a != [] && b != [] {
      FirstIsLeast(a, b[0]);
      FirstIsLeast(b, a[0]);
      if KeyLess(a[0].key, b[0].key) { RustMetadata.KeyLessAsymmetric(a[0].key, b[0].key); }
      forall e ensures e in a[1..] <==> e in b[1..] {
        NotFirst(a, e);
        NotFirst(b, e);
      }
      CanonicalUnique(a[1..], b[1..]);
      assert a == [a[0]] + a[1..] && b == [b[0]] + b[1..];
    }
  }

  lemma FirstIsLeast(m: seq<Entry>, e: Entry)
    requires Canonical(m) && m != [] && e in m
    ensures e == m[0] || KeyLess(m[0].key, e.key)
  {
  }

  lemma NotFirst(m: seq<Entry>, e: Entry)
    requires Canonical(m) && m != []
    ensures e in m[1..] <==> e in m && e != m[0]
  {
    assert m == [m[0]] + m[1..];
    if m[0] in m[1..] {
      var i :| 0 <= i < |m[1..]| && m[1..][i] == m[0];
      RustMetadata.KeyLessAsymmetric(m[0].key, m[i + 1].key);
    }
  }

  // ---------------------------------------------------------------------------
  // Sizes

  function Size(entry: Entry): int {
    ENTRY_HEADER_LEN + |NameOf(entry.key)| + |entry.value|
  }

  lemma {:induction false} BlockSize(m: seq<Entry>)
    requires forall i :: 0 <= i < |m| ==> ValidKey(m[i].key)
    ensures |EncodeRaws(RawsOf(m))| == Sum(m, Size)
  {
    if m != [] {
      BlockSize(m[1..]);
      assert RawsOf(m)[1..] == RawsOf(m[1..]) && RawsOf(m)[0] == RawOf(m[0]);
    }
  }

  lemma {:induction false} MergeSize(m: seq<Entry>, extra: seq<Entry>)
    ensures Sum(Merge(m, extra), Size) == Sum(m, Size) + Sum(extra, Size)
    decreases |m| + |extra|
  {
    if m != [] && extra != [] {
      if KeyLess(m[0].key, extra[0].key) {
        MergeSize(m[1..], extra);
        assert Merge(m, extra)[1..] == Merge(m[1..], extra);
      } else {
        MergeSize(m, extra[1..]);
        assert Merge(m, extra)[1..] == Merge(m, extra[1..]);
      }
    }
  }

  lemma FrontSize(m: seq<Entry>, i: nat)
    requires i <= |m|
    ensures 0 <= Sum(m[..i], Size) <= Sum(m, Size)
  {
    assert m == m[..i] + m[i..];
    SumConcat(m[..i], m[i..], Size);
    SumBounds(m[..i], Size);
    SumBounds(m[i..], Size);
  }

  // ---------------------------------------------------------------------------
  // The runtime's entries

  lemma {:induction false} RuntimeFromCanonical(k: nat, r: Runtime)
    requires k <= 4
    ensures Canonical(RuntimeFrom(k, r))
    ensures forall e :: e in RuntimeFrom(k, r) ==> e.key.Reserved? && (k < 4 ==> REQUEST_KEYS[k] <= e.key.id)
    decreases 4 - k
  {
    if k < 4 {
      RuntimeFromCanonical(k + 1, r);
      var rest := RuntimeFrom(k + 1, r);
      forall i | 0 <= i < |rest| ensures KeyLess(Reserved(REQUEST_KEYS[k]), rest[i].key) {
        assert rest[i] in rest;
      }
      if Carries(k, r) { ConsCanonical(RuntimeFrom(k, r)[0], rest); }
    }
  }

  /** The keys this request carries, as the length pass goes through them. */
  predicate Carries(k: int, r: Runtime) {
    0 <= k < 4 && ValueLength(REQUEST_KEYS[k], r) != 0
  }

  lemma {:induction false} RuntimeFromMembers(k: nat, j: nat, r: Runtime)
    requires k <= j && Carries(j, r)
    ensures Entry(Reserved(REQUEST_KEYS[j]), Value(REQUEST_KEYS[j], r)) in RuntimeFrom(k, r)
    decreases 4 - k
  {
  }

  lemma {:induction false} RuntimeFromCarried(k: nat, i: nat, r: Runtime) returns (j: nat)
    requires k <= 4 && i < |RuntimeFrom(k, r)|
    ensures k <= j && Carries(j, r) && RuntimeFrom(k, r)[i].key == Reserved(REQUEST_KEYS[j])
    decreases 4 - k
  {
    if !Carries(k, r) {
      j := RuntimeFromCarried(k + 1, i, r);
    } else if i == 0 {
      j := k;
    } else {
      j := RuntimeFromCarried(k + 1, i - 1, r);
    }
  }

  predicate Clashes(m: seq<Entry>, k: int, r: Runtime) {
    Carries(k, r) && exists i :: 0 <= i < |m| && m[i].key == Reserved(REQUEST_KEYS[k])
  }

  lemma DisjointIff(m: seq<Entry>, r: Runtime)
    ensures Disjoint(m, RuntimeEntries(r)) <==> forall k :: 0 <= k < 4 ==> !Clashes(m, k, r)
  {
    if k :| 0 <= k < 4 && Clashes(m, k, r) {
      RuntimeFromMembers(0, k, r);
    }
    if i, j :| 0 <= i < |m| && 0 <= j < |RuntimeEntries(r)| && m[i].key == RuntimeEntries(r)[j].key {
      var k := RuntimeFromCarried(0, j, r);
      assert Clashes(m, k, r);
    }
  }

  // ---------------------------------------------------------------------------
  // The two passes

  datatype LengthError = DuplicateKey | Overflow

  /** `Math.addExact`. */
  function AddExact(a: nat, b: nat): Option<nat> {
    if a + b > INT_MAX then None else Some(a + b)
  }

  method HoldsReserved(m: seq<Entry>, key: int) returns (found: bool)
    ensures found <==> exists i :: 0 <= i < |m| && m[i].key == Reserved(key)
  {
    for i := 0 to |m|
      invariant forall j :: 0 <= j < i ==> m[j].key != Reserved(key)
    {
      if m[i].key == Reserved(key) {
        return true;
      }
    }
    return false;
  }

  function UnionOf(m: seq<Entry>, r: Runtime): seq<Entry> {
    Merge(m, RuntimeEntries(r))
  }

  lemma UnionCanonical(m: seq<Entry>, r: Runtime)
    requires Canonical(m) && Disjoint(m, RuntimeEntries(r))
    ensures Canonical(UnionOf(m, r))
  {
    RuntimeFromCanonical(0, r);
    MergeCanonical(m, RuntimeEntries(r));
  }

  lemma UnionLength(m: seq<Entry>, r: Runtime)
    requires Canonical(m) && Disjoint(m, RuntimeEntries(r))
    ensures Canonical(UnionOf(m, r))
    ensures |EncodePrefix(UnionOf(m, r))| == 4 + Sum(m, Size) + Sum(RuntimeEntries(r), Size)
  {
    UnionCanonical(m, r);
    BlockSize(UnionOf(m, r));
    MergeSize(m, RuntimeEntries(r));
  }

  /** The first pass: refuses a user entry under a key this request carries, otherwise gives
      the length of the union's encoding unless that does not fit an int. */
  method RequestPrefixLength(m: seq<Entry>, r: Runtime) returns (n: Result<nat, LengthError>)
    requires Canonical(m) && ValidRuntime(r)
    ensures n == Err(DuplicateKey) <==> !Disjoint(m, RuntimeEntries(r))
    ensures Disjoint(m, RuntimeEntries(r)) ==>
      && Canonical(UnionOf(m, r))
      && n == if |EncodePrefix(UnionOf(m, r))| > INT_MAX then Err(Overflow) else Ok(|EncodePrefix(UnionOf(m, r))|)
  {
    if Disjoint(m, RuntimeEntries(r)) {
      UnionLength(m, r);
    }
    RuntimeSize(r);
    if m == [] {
      var length := 4 + ENTRY_HEADER_LEN + 4;
      if r.trace.Some? {
        length := length + ENTRY_HEADER_LEN + TRACE_CONTEXT_LEN;
      }
      if r.zstd {
        length := length + ENTRY_HEADER_LEN + 1;
        length := length + ENTRY_HEADER_LEN + 4;
      }
      return Ok(length);
    }
    var encoded := AddRuntime(m, r);
    if encoded.None? {
      return Err(DuplicateKey);
    }
    n := AddEntries(m, encoded.value);
  }

  lemma ClashMeans(m: seq<Entry>, k: nat, r: Runtime)
    requires Clashes(m, k, r)
    ensures !Disjoint(m, RuntimeEntries(r))
  {
    DisjointIff(m, r);
  }

  method AddRuntime(m: seq<Entry>, r: Runtime) returns (n: Option<nat>)
    requires ValidRuntime(r)
    ensures n == if Disjoint(m, RuntimeEntries(r)) then Some(Sum(RuntimeEntries(r), Size)) else None
  {
    var encoded: nat := 0;
    ghost var total := Sum(RuntimeFrom(0, r), Size);
    for k := 0 to 4
      invariant encoded + Sum(RuntimeFrom(k, r), Size) == total
      invariant encoded <= 32 * k
      invariant forall j :: 0 <= j < k ==> !Clashes(m, j, r)
    {
      var key := REQUEST_KEYS[k];
      var valueLength := ValueLength(key, r);
      RuntimeStep(k, r);
      if valueLength != 0 {
        var found := HoldsReserved(m, key);
        assert found <==> Clashes(m, k, r);
        if found {
          ClashMeans(m, k, r);
          return None;
        }
        var sum := AddExact(encoded, ENTRY_HEADER_LEN + valueLength);
        encoded := sum.value;
      }
    }
    DisjointIff(m, r);
    return Some(encoded);
  }

  /** The runtime part of the length never overflows; the user part is added exactly. */
  method AddEntries(m: seq<Entry>, start: nat) returns (n: Result<nat, LengthError>)
    requires start <= INT_MAX
    ensures n == if 4 + start + Sum(m, Size) > INT_MAX then Err(Overflow) else Ok(4 + start + Sum(m, Size))
  {
    var encoded := start;
    for i := 0 to |m|
      invariant encoded == start + Sum(m[..i], Size) <= INT_MAX
    {
      assert m[..i + 1] == m[..i] + [m[i]];
      SumAppend(m[..i], m[i], Size);
      FrontSize(m, i + 1);
      var sum := AddExact(encoded, ENTRY_HEADER_LEN);
      if sum.None? { return Err(Overflow); }
      sum := AddExact(sum.value, |NameOf(m[i].key)|);
      if sum.None? { return Err(Overflow); }
      sum := AddExact(sum.value, |m[i].value|);
      if sum.None? { return Err(Overflow); }
      encoded := sum.value;
    }
    assert m[..|m|] == m;
    var total := AddExact(4, encoded);
    return if total.None? then Err(Overflow) else Ok(total.value);
  }

  lemma RuntimeStep(k: nat, r: Runtime)
    requires k < 4 && ValidRuntime(r)
    ensures Sum(RuntimeFrom(k, r), Size) ==
      Sum(RuntimeFrom(k + 1, r), Size) + if Carries(k, r) then ENTRY_HEADER_LEN + ValueLength(REQUEST_KEYS[k], r) else 0
  {
  }

  lemma RuntimeSize(r: Runtime)
    requires ValidRuntime(r)
    ensures Sum(RuntimeEntries(r), Size) ==
      11 + (if r.trace.Some? then 32 else 0) + (if r.zstd then 19 else 0)
  {
    RuntimeStep(0, r);
    RuntimeStep(1, r);
    RuntimeStep(2, r);
    RuntimeStep(3, r);
  }

  /** An entry of the runtime as `writeEntryHeader` and `writeRequestValue` put it down. */
  function RuntimeBytes(key: int, r: Runtime): bytes
    requires key in REQUEST_KEYS
  {
    BigEndian(CRITICAL_BIT + key, 2) + [0] + BigEndian(ValueLength(key, r), 4) + Value(key, r)
  }

  lemma RuntimeBytesEncode(k: nat, r: Runtime)
    requires ValidRuntime(r) && Carries(k, r)
    ensures RuntimeFrom(k, r)[1..] == RuntimeFrom(k + 1, r)
    ensures var e := RuntimeFrom(k, r)[0]; ValidKey(e.key) && RuntimeBytes(REQUEST_KEYS[k], r) == EncodeRaw(RawOf(e))
  {
  }

  /** What the merge loop has written. */
  ghost predicate Written(written: seq<Entry>, output: bytes) {
    (forall j :: 0 <= j < |written| ==> ValidKey(written[j].key)) && output == EncodeRaws(RawsOf(written))
  }

  lemma WrittenMore(written: seq<Entry>, output: bytes, e: Entry)
    requires Written(written, output) && ValidKey(e.key)
    ensures Written(written + [e], output + EncodeRaw(RawOf(e)))
  {
    assert RawsOf(written + [e]) == RawsOf(written) + [RawOf(e)];
    FlatMapAppend(RawsOf(written), RawOf(e), EncodeRaw);
  }

  /** What the merge loop still has to write. */
  ghost function ToWrite(m: seq<Entry>, r: Runtime, i: nat, k: nat): seq<Entry>
    requires i <= |m| && k <= 4
  {
    Merge(m[i..], RuntimeFrom(k, r))
  }

  lemma UserFirst(m: seq<Entry>, r: Runtime, i: nat, k: nat)
    requires Canonical(m) && i < |m| && k <= 4
    requires RuntimeFrom(k, r) == [] || KeyLess(m[i].key, RuntimeFrom(k, r)[0].key)
    ensures ToWrite(m, r, i, k) == [m[i]] + ToWrite(m, r, i + 1, k)
  {
  }

  lemma RuntimeFirst(m: seq<Entry>, r: Runtime, i: nat, k: nat)
    requires i <= |m| && Carries(k, r) && ValidRuntime(r)
    requires i == |m| || !KeyLess(m[i].key, Reserved(REQUEST_KEYS[k]))
    ensures ToWrite(m, r, i, k) == [RuntimeFrom(k, r)[0]] + ToWrite(m, r, i, k + 1)
  {
  }

  /** The key id the merge loop compares. */
  function EntryId(key: Key): int {
    if key.Reserved? then key.id else USER_KEY_ID
  }

  lemma IdOrder(m: seq<Entry>, r: Runtime, i: nat, k: nat)
    requires Canonical(m) && Disjoint(m, RuntimeEntries(r)) && i < |m| && Carries(k, r)
    ensures REQUEST_KEYS[k] >= EntryId(m[i].key) <==> KeyLess(m[i].key, Reserved(REQUEST_KEYS[k]))
  {
    DisjointIff(m, r);
    assert !Clashes(m, k, r);
  }

  ghost predicate MergeInv(m: seq<Entry>, r: Runtime, written: seq<Entry>, output: bytes, i: nat, k: nat) {
    && i <= |m| && k <= 4
    && Written(written, output)
    && written + ToWrite(m, r, i, k) == UnionOf(m, r)
  }

  lemma MergeStarts(m: seq<Entry>, r: Runtime)
    ensures MergeInv(m, r, [], [], 0, 0)
  {
  }

  lemma MergeEnds(m: seq<Entry>, r: Runtime, written: seq<Entry>, output: bytes)
    requires MergeInv(m, r, written, output, |m|, 4)
    ensures written == UnionOf(m, r)
  {
  }

  lemma WriteUser(m: seq<Entry>, r: Runtime, written: seq<Entry>, output: bytes, i: nat, k: nat)
    requires Canonical(m) && Disjoint(m, RuntimeEntries(r)) && MergeInv(m, r, written, output, i, k) && i < |m|
    requires k == 4 || (Carries(k, r) && REQUEST_KEYS[k] >= EntryId(m[i].key))
    ensures MergeInv(m, r, written + [m[i]], output + EncodeRaw(RawOf(m[i])), i + 1, k)
  {
    if k < 4 { IdOrder(m, r, i, k); }
    UserFirst(m, r, i, k);
    WrittenMore(written, output, m[i]);
    Associates(written, [m[i]], ToWrite(m, r, i + 1, k));
  }

  lemma WriteRuntime(m: seq<Entry>, r: Runtime, written: seq<Entry>, output: bytes, i: nat, k: nat)
    requires Canonical(m) && ValidRuntime(r) && Disjoint(m, RuntimeEntries(r)) && MergeInv(m, r, written, output, i, k)
    requires Carries(k, r) && (i == |m| || REQUEST_KEYS[k] < EntryId(m[i].key))
    ensures MergeInv(m, r, written + [RuntimeFrom(k, r)[0]], output + RuntimeBytes(REQUEST_KEYS[k], r), i, k + 1)
  {
    if i < |m| { IdOrder(m, r, i, k); }
    RuntimeFirst(m, r, i, k);
    RuntimeBytesEncode(k, r);
    WrittenMore(written, output, RuntimeFrom(k, r)[0]);
    Associates(written, [RuntimeFrom(k, r)[0]], ToWrite(m, r, i, k + 1));
  }

  method MergeEntries(m: seq<Entry>, r: Runtime) returns (output: bytes)
    requires Canonical(m) && ValidRuntime(r) && Disjoint(m, RuntimeEntries(r))
    ensures Canonical(UnionOf(m, r)) && output == EncodeBlock(UnionOf(m, r))
  {
    UnionCanonical(m, r);
    output := [];
    var i, k := 0, 0;
    ghost var written := [];
    MergeStarts(m, r);
    while i < |m| || k < 4
      invariant MergeInv(m, r, written, output, i, k)
      decreases |m| - i + 4 - k
    {
      while k < 4 && ValueLength(REQUEST_KEYS[k], r) == 0
        invariant MergeInv(m, r, written, output, i, k)
      {
        assert ToWrite(m, r, i, k + 1) == ToWrite(m, r, i, k);
        k := k + 1;
      }
      if i == |m| && k == 4 {
        break;
      }
      if i < |m| && (k == 4 || REQUEST_KEYS[k] >= EntryId(m[i].key)) {
        WriteUser(m, r, written, output, i, k);
        written := written + [m[i]];
        output := output + EncodeRaw(RawOf(m[i]));
        i := i + 1;
      } else {
        WriteRuntime(m, r, written, output, i, k);
        written := written + [RuntimeFrom(k, r)[0]];
        output := output + RuntimeBytes(REQUEST_KEYS[k], r);
        k := k + 1;
      }
    }
    MergeEnds(m, r, written, output);
  }

  /** The fast path when there is no user metadata: the runtime's entries in a row. */
  method WriteRuntimeOnly(r: Runtime) returns (output: bytes)
    requires ValidRuntime(r)
    ensures Canonical(RuntimeEntries(r)) && output == EncodeBlock(RuntimeEntries(r))
  {
    ghost var written := [];
    output := [];
    output, written := PutRuntime(r, 0, output, written);
    if r.trace.Some? {
      output, written := PutRuntime(r, 1, output, written);
    }
    ghost var plain := written;
    if r.zstd {
      output, written := PutRuntime(r, 2, output, written);
      output, written := PutRuntime(r, 3, output, written);
    }
    RuntimeUnfolds(r, plain, written);
    RuntimeFromCanonical(0, r);
  }

  /** One header and value of the runtime's. */
  method PutRuntime(r: Runtime, k: nat, output: bytes, ghost written: seq<Entry>)
    returns (out: bytes, ghost more: seq<Entry>)
    requires ValidRuntime(r) && Carries(k, r) && Written(written, output)
    ensures out == output + RuntimeBytes(REQUEST_KEYS[k], r)
    ensures more == written + [OwnEntry(k, r)] && Written(more, out)
  {
    RuntimeBytesEncode(k, r);
    WrittenMore(written, output, RuntimeFrom(k, r)[0]);
    out := output + RuntimeBytes(REQUEST_KEYS[k], r);
    more := written + [RuntimeFrom(k, r)[0]];
  }

  function OwnEntry(k: nat, r: Runtime): Entry
    requires k < 4
  {
    Entry(Reserved(REQUEST_KEYS[k]), Value(REQUEST_KEYS[k], r))
  }

  lemma RuntimeUnfolds(r: Runtime, plain: seq<Entry>, written: seq<Entry>)
    requires plain == if r.trace.Some? then [] + [OwnEntry(0, r)] + [OwnEntry(1, r)] else [] + [OwnEntry(0, r)]
    requires written == if r.zstd then plain + [OwnEntry(2, r)] + [OwnEntry(3, r)] else plain
    ensures written == RuntimeEntries(r)
  {
    RuntimeTail(r);
    RuntimeHead(r);
    var tail := RuntimeFrom(2, r);
    assert written == plain + tail;
    assert r.trace.Some? ==> plain + tail == [OwnEntry(0, r)] + ([OwnEntry(1, r)] + tail);
  }

  lemma RuntimeTail(r: Runtime)
    ensures RuntimeFrom(2, r) == if r.zstd then [OwnEntry(2, r), OwnEntry(3, r)] else []
  {
    assert RuntimeFrom(3, r) == if r.zstd then [OwnEntry(3, r)] else [];
  }

  lemma RuntimeHead(r: Runtime)
    ensures RuntimeEntries(r) ==
      [OwnEntry(0, r)] + if r.trace.Some? then [OwnEntry(1, r)] + RuntimeFrom(2, r) else RuntimeFrom(2, r)
  {
    assert RuntimeFrom(1, r) == if r.trace.Some? then [OwnEntry(1, r)] + RuntimeFrom(2, r) else RuntimeFrom(2, r);
  }

  /** The second pass. Given the length of the first it writes exactly that many bytes, and
      they are the plain encoding of the user's and the runtime's entries taken together. */
  method WriteRequestPrefix(m: seq<Entry>, r: Runtime, prefixLength: nat) returns (output: bytes)
    requires Canonical(m) && ValidRuntime(r) && Disjoint(m, RuntimeEntries(r))
    requires Canonical(UnionOf(m, r)) && prefixLength == |EncodePrefix(UnionOf(m, r))|
    ensures |output| == prefixLength && output == EncodePrefix(UnionOf(m, r))
  {
    output := BigEndian(prefixLength - 4, 4);
    if m == [] {
      var entries := WriteRuntimeOnly(r);
      return output + entries;
    }
    var entries := MergeEntries(m, r);
    return output + entries;
  }

  /** The union is a union: its entries are the user's and the runtime's, and no other map
      has the same entries. */
  lemma UnionIsUnion(m: seq<Entry>, r: Runtime, other: seq<Entry>)
    requires Canonical(m) && Disjoint(m, RuntimeEntries(r))
    ensures Canonical(UnionOf(m, r)) && forall e :: e in UnionOf(m, r) <==> e in m || e in RuntimeEntries(r)
    ensures Canonical(other) && (forall e :: e in other <==> e in m || e in RuntimeEntries(r)) ==>
      other == UnionOf(m, r)
  {
    UnionCanonical(m, r);
    forall e ensures e in UnionOf(m, r) <==> e in m || e in RuntimeEntries(r) {
      MergeMembers(m, RuntimeEntries(r), e);
    }
    if Canonical(other) && forall e :: e in other <==> e in m || e in RuntimeEntries(r) {
      CanonicalUnique(other, UnionOf(m, r));
    }
  }
}
