/** The schema lock and its compatibility checker
    (crates/moonlight-bridge-codegen/src/schema.rs).

    A message and an enum share one shape here: numbered members plus reserved
    number ranges and reserved names. The `BTreeMap`s of the lock are Dafny maps,
    so the order in which errors are reported is not part of the model; which
    errors are reported is. */
module Schema {

  import opened Common

  /** Numbers `start <= n < end`. */
  datatype NumberRange = NumberRange(start: int, end: int)

  datatype Member =
    | Field(name: string, number: int, fieldLabel: int, kind: int, typeName: string,
            oneofIndex: Option<int>, proto3Optional: bool)
    | EnumValue(name: string)

  /** A locked message or a locked enum. */
  datatype Block = Block(members: map<int, Member>,
                         reservedRanges: seq<NumberRange>,
                         reservedNames: seq<string>)

  datatype Rpc = Rpc(input: string, output: string, clientStreaming: bool,
                     serverStreaming: bool, policy: string)

  datatype Lock = Lock(messages: map<string, Block>, enums: map<string, Block>,
                       services: map<string, map<string, Rpc>>)

  predicate Contains(range: NumberRange, number: int) {
    range.start <= number < range.end
  }

  predicate Reserves(ranges: seq<NumberRange>, number: int) {
    exists range :: range in ranges && Contains(range, number)
  }

  ghost predicate Covers(required: NumberRange, available: seq<NumberRange>) {
    forall number :: Contains(required, number) ==> Reserves(available, number)
  }

  // ---------------------------------------------------------------------------
  // The interval sweep

  ghost predicate SortedByStart(ranges: seq<NumberRange>) {
    forall i, j :: 0 <= i < j < |ranges| ==> ranges[i].start <= ranges[j].start
  }

  function InsertByStart(range: NumberRange, sorted: seq<NumberRange>): seq<NumberRange> {
    if sorted == [] || range.start < sorted[0].start then [range] + sorted
    else [sorted[0]] + InsertByStart(range, sorted[1..])
  }

  lemma {:induction false} InsertByStartSorts(range: NumberRange, sorted: seq<NumberRange>)
    requires SortedByStart(sorted)
    ensures SortedByStart(InsertByStart(range, sorted))
    ensures forall x :: x in InsertByStart(range, sorted) <==> x in sorted || x == range
  {
    if sorted != [] && range.start >= sorted[0].start {
      InsertByStartSorts(range, sorted[1..]);
      var rest := InsertByStart(range, sorted[1..]);
      assert sorted == [sorted[0]] + sorted[1..];
      forall i | 0 <= i < |rest| ensures sorted[0].start <= rest[i].start {
        assert rest[i] in rest;
      }
    }
  }

  function SortByStart(ranges: seq<NumberRange>): seq<NumberRange> {
    if ranges == [] then []
    else InsertByStart(ranges[|ranges| - 1], SortByStart(ranges[..|ranges| - 1]))
  }

  lemma {:induction false} SortByStartSorts(ranges: seq<NumberRange>)
    ensures SortedByStart(SortByStart(ranges))
    ensures forall x :: x in SortByStart(ranges) <==> x in ranges
  {
    if ranges != [] {
      var front, last := ranges[..|ranges| - 1], ranges[|ranges| - 1];
      SortByStartSorts(front);
      InsertByStartSorts(last, SortByStart(front));
      assert ranges == front + [last];
    }
  }

  /** The sweep's answer, said without the sweep. A required range that holds at least
      one number is covered exactly when all of its numbers are. A required range that
      holds none is not always reported as covered: see `EmptyRangeCanBeRefused`. */
  ghost predicate ReportedCovered(required: NumberRange, available: seq<NumberRange>) {
    if required.start < required.end then
      Covers(required, available)
    else
      || (forall range :: range in available ==> range.end <= required.start)
      || Reserves(available, required.start)
  }

  method RangeIsCovered(required: NumberRange, available: seq<NumberRange>) returns (covered: bool)
    ensures covered <==> ReportedCovered(required, available)
  {
    var ranges := SortByStart(available);
    SortByStartSorts(available);
    var cursor := required.start;
    for i := 0 to |ranges|
      invariant required.start <= cursor
      invariant required.start < cursor ==> cursor < required.end
      invariant forall number :: required.start <= number < cursor ==> Reserves(available, number)
      invariant forall j :: 0 <= j < i ==> ranges[j].end <= cursor
    {
      var range := ranges[i];
      if range.end <= cursor {
        continue;
      }
      if range.start > cursor {
        assert !Reserves(available, cursor);
        assert required.start < required.end ==> Contains(required, cursor);
        return false;
      }
      assert range in available;
      assert forall number :: cursor <= number < range.end ==> Contains(range, number) && Reserves(available, number);
      cursor := if cursor < range.end then range.end else cursor;
      if cursor >= required.end {
        return true;
      }
    }
    assert !Reserves(available, cursor);
    assert cursor < required.end ==> Contains(required, cursor);
    return cursor >= required.end;
  }

  // ---------------------------------------------------------------------------
  // The checker

  predicate IsReserved(number: int, name: string, block: Block) {
    Reserves(block.reservedRanges, number) && name in block.reservedNames
  }

  datatype BlockFault =
    | BlockRemoved
    | RangeDropped(range: NumberRange)
    | NameDropped(name: string)
    | MemberChanged(number: int)
    | MemberFreed(number: int)

  datatype ServiceFault =
    | ServiceRemoved
    | RpcRemoved(rpc: string)
    | SignatureChanged(rpc: string)
    | PolicyChanged(rpc: string)

  datatype SchemaError =
    | MessageError(subject: string, fault: BlockFault)
    | EnumError(subject: string, fault: BlockFault)
    | ServiceError(subject: string, serviceFault: ServiceFault)

  ghost predicate BlockFaulty(prev: Block, next: Block, fault: BlockFault) {
    match fault
    case BlockRemoved => false
    case RangeDropped(range) => range in prev.reservedRanges && !ReportedCovered(range, next.reservedRanges)
    case NameDropped(name) => name in prev.reservedNames && name !in next.reservedNames
    case MemberChanged(number) =>
      number in prev.members && number in next.members && next.members[number] != prev.members[number]
    case MemberFreed(number) =>
      number in prev.members && number !in next.members && !IsReserved(number, prev.members[number].name, next)
  }

  ghost predicate BlocksFaulty(prev: map<string, Block>, next: map<string, Block>, name: string, fault: BlockFault) {
    name in prev && if name in next then BlockFaulty(prev[name], next[name], fault) else fault.BlockRemoved?
  }

  predicate SameSignature(a: Rpc, b: Rpc) {
    && a.input == b.input && a.output == b.output
    && a.clientStreaming == b.clientStreaming && a.serverStreaming == b.serverStreaming
  }

  predicate RpcFaulty(prev: map<string, Rpc>, next: map<string, Rpc>, fault: ServiceFault) {
    match fault
    case ServiceRemoved => false
    case RpcRemoved(rpc) => rpc in prev && rpc !in next
    case SignatureChanged(rpc) => rpc in prev && rpc in next && !SameSignature(next[rpc], prev[rpc])
    case PolicyChanged(rpc) =>
      rpc in prev && rpc in next && SameSignature(next[rpc], prev[rpc]) && next[rpc].policy != prev[rpc].policy
  }

  /** Which errors a pair of locks deserves. */
  ghost predicate Faulty(prev: Lock, next: Lock, error: SchemaError) {
    match error
    case MessageError(name, fault) => BlocksFaulty(prev.messages, next.messages, name, fault)
    case EnumError(name, fault) => BlocksFaulty(prev.enums, next.enums, name, fault)
    case ServiceError(name, fault) =>
      && name in prev.services
      && if name in next.services then RpcFaulty(prev.services[name], next.services[name], fault)
         else fault.ServiceRemoved?
  }

  method CheckPreservedReservations(prev: Block, next: Block) returns (faults: seq<BlockFault>)
    ensures forall f :: f in faults <==> (f.RangeDropped? || f.NameDropped?) && BlockFaulty(prev, next, f)
  {
    faults := [];
    for i := 0 to |prev.reservedRanges|
      invariant forall f :: f in faults <==>
        f.RangeDropped? && f.range in prev.reservedRanges[..i] && BlockFaulty(prev, next, f)
    {
      var covered := RangeIsCovered(prev.reservedRanges[i], next.reservedRanges);
      if !covered {
        faults := faults + [RangeDropped(prev.reservedRanges[i])];
      }
    }
    for i := 0 to |prev.reservedNames|
      invariant forall f :: f in faults <==>
        && (f.RangeDropped? || (f.NameDropped? && f.name in prev.reservedNames[..i]))
        && BlockFaulty(prev, next, f)
    {
      if prev.reservedNames[i] !in next.reservedNames {
        faults := faults + [NameDropped(prev.reservedNames[i])];
      }
    }
  }

  method BlockFaults(prev: Block, next: Block) returns (faults: seq<BlockFault>)
    ensures forall f :: f in faults <==> BlockFaulty(prev, next, f)
  {
    faults := CheckPreservedReservations(prev, next);
    var todo := prev.members.Keys;
    while todo != {}
      invariant todo <= prev.members.Keys
      invariant forall f :: f in faults <==>
        && BlockFaulty(prev, next, f)
        && (f.MemberChanged? || f.MemberFreed? ==> f.number !in todo)
      decreases todo
    {
      assert (forall number :: number !in todo) ==> todo == {};
      var number :| number in todo;
      if number in next.members {
        if next.members[number] != prev.members[number] {
          faults := faults + [MemberChanged(number)];
        }
      } else if !IsReserved(number, prev.members[number].name, next) {
        faults := faults + [MemberFreed(number)];
      }
      todo := todo - {number};
    }
  }

  method RpcFaults(prev: map<string, Rpc>, next: map<string, Rpc>) returns (faults: seq<ServiceFault>)
    ensures forall f :: f in faults <==> RpcFaulty(prev, next, f)
  {
    faults := [];
    var todo := prev.Keys;
    while todo != {}
      invariant todo <= prev.Keys
      invariant forall f :: f in faults <==> RpcFaulty(prev, next, f) && f.rpc !in todo
      decreases todo
    {
      var rpc :| rpc in todo;
      if rpc !in next {
        faults := faults + [RpcRemoved(rpc)];
      } else if !SameSignature(next[rpc], prev[rpc]) {
        faults := faults + [SignatureChanged(rpc)];
      } else if next[rpc].policy != prev[rpc].policy {
        faults := faults + [PolicyChanged(rpc)];
      }
      todo := todo - {rpc};
    }
  }

  /** The blocks of one kind, each fault with the name of its block. */
  method BlocksFaults(prev: map<string, Block>, next: map<string, Block>)
    returns (faults: seq<(string, BlockFault)>)
    ensures forall p :: p in faults <==> BlocksFaulty(prev, next, p.0, p.1)
  {
    faults := [];
    var todo := prev.Keys;
    while todo != {}
      invariant todo <= prev.Keys
      invariant forall p :: p in faults <==> BlocksFaulty(prev, next, p.0, p.1) && p.0 !in todo
      decreases todo
    {
      var name :| name in todo;
      var found := [BlockRemoved];
      if name in next {
        found := BlockFaults(prev[name], next[name]);
      }
      ghost var before := faults;
      faults := faults + seq(|found|, i requires 0 <= i < |found| => (name, found[i]));
      forall p ensures p in faults <==> p in before || (p.0 == name && p.1 in found) {
        if p.0 == name && p.1 in found {
          var i :| 0 <= i < |found| && found[i] == p.1;
          assert faults[|before| + i] == p;
        }
      }
      todo := todo - {name};
    }
  }

  method CompatibilityErrors(prev: Lock, next: Lock) returns (errors: seq<SchemaError>)
    ensures forall e :: e in errors <==> Faulty(prev, next, e)
    ensures errors == [] <==> Compatible(prev, next)
  {
    errors := [];
    var messages := BlocksFaults(prev.messages, next.messages);
    for i := 0 to |messages|
      invariant forall e :: e in errors <==> e.MessageError? && (e.subject, e.fault) in messages[..i]
    {
      errors := errors + [MessageError(messages[i].0, messages[i].1)];
    }
    var enums := BlocksFaults(prev.enums, next.enums);
    for i := 0 to |enums|
      invariant forall e :: e in errors <==>
        || (e.MessageError? && (e.subject, e.fault) in messages)
        || (e.EnumError? && (e.subject, e.fault) in enums[..i])
    {
      errors := errors + [EnumError(enums[i].0, enums[i].1)];
    }
    var todo := prev.services.Keys;
    while todo != {}
      invariant todo <= prev.services.Keys
      invariant forall e :: e in errors <==> Faulty(prev, next, e) && (e.ServiceError? ==> e.subject !in todo)
      decreases todo
    {
      var name :| name in todo;
      var found := [ServiceRemoved];
      if name in next.services {
        found := RpcFaults(prev.services[name], next.services[name]);
      }
      ghost var before := errors;
      for i := 0 to |found|
        invariant forall e :: e in errors <==>
          e in before || (e.ServiceError? && e.subject == name && e.serviceFault in found[..i])
      {
        errors := errors + [ServiceError(name, found[i])];
      }
      assert forall f :: f in found <==> Faulty(prev, next, ServiceError(name, f));
      todo := todo - {name};
    }
    NoErrorsIffCompatible(prev, next);
    assert errors == [] <==> forall e :: e !in errors by {
      if errors != [] { assert errors[0] in errors; }
    }
  }

  // ---------------------------------------------------------------------------
  // What "compatible" means

  ghost predicate BlockCompatible(prev: Block, next: Block) {
    && (forall range :: range in prev.reservedRanges ==> ReportedCovered(range, next.reservedRanges))
    && (forall name :: name in prev.reservedNames ==> name in next.reservedNames)
    && (forall number :: number in prev.members ==>
          if number in next.members then next.members[number] == prev.members[number]
          else IsReserved(number, prev.members[number].name, next))
  }

  ghost predicate BlocksCompatible(prev: map<string, Block>, next: map<string, Block>) {
    forall name :: name in prev ==> name in next && BlockCompatible(prev[name], next[name])
  }

  ghost predicate Compatible(prev: Lock, next: Lock) {
    && BlocksCompatible(prev.messages, next.messages)
    && BlocksCompatible(prev.enums, next.enums)
    && (forall name :: name in prev.services ==> name in next.services)
    && (forall name, rpc :: name in prev.services && rpc in prev.services[name] ==>
          rpc in next.services[name] && next.services[name][rpc] == prev.services[name][rpc])
  }

  lemma BlockFaultlessIffCompatible(prev: Block, next: Block)
    ensures (forall f :: !BlockFaulty(prev, next, f)) <==> BlockCompatible(prev, next)
  {
    if forall f :: !BlockFaulty(prev, next, f) {
      forall range | range in prev.reservedRanges ensures ReportedCovered(range, next.reservedRanges) {
        assert !BlockFaulty(prev, next, RangeDropped(range));
      }
      forall name | name in prev.reservedNames ensures name in next.reservedNames {
        assert !BlockFaulty(prev, next, NameDropped(name));
      }
      forall number | number in prev.members
        ensures if number in next.members then next.members[number] == prev.members[number]
                else IsReserved(number, prev.members[number].name, next)
      {
        assert !BlockFaulty(prev, next, MemberChanged(number));
        assert !BlockFaulty(prev, next, MemberFreed(number));
      }
    }
  }

  lemma BlocksFaultlessIffCompatible(prev: map<string, Block>, next: map<string, Block>)
    ensures (forall name, f :: !BlocksFaulty(prev, next, name, f)) <==> BlocksCompatible(prev, next)
  {
    forall name | name in prev && name in next
      ensures (forall f :: !BlockFaulty(prev[name], next[name], f)) <==> BlockCompatible(prev[name], next[name])
    {
      BlockFaultlessIffCompatible(prev[name], next[name]);
    }
    if forall name, f :: !BlocksFaulty(prev, next, name, f) {
      forall name | name in prev ensures name in next && BlockCompatible(prev[name], next[name]) {
        assert !BlocksFaulty(prev, next, name, BlockRemoved);
        assert forall f :: BlocksFaulty(prev, next, name, f) <==> BlockFaulty(prev[name], next[name], f);
      }
    }
  }

  lemma NoErrorsIffCompatible(prev: Lock, next: Lock)
    ensures (forall e :: !Faulty(prev, next, e)) <==> Compatible(prev, next)
  {
    BlocksFaultlessIffCompatible(prev.messages, next.messages);
    BlocksFaultlessIffCompatible(prev.enums, next.enums);
    if forall e :: !Faulty(prev, next, e) {
      forall name, f ensures !BlocksFaulty(prev.messages, next.messages, name, f) {
        assert !Faulty(prev, next, MessageError(name, f));
      }
      forall name, f ensures !BlocksFaulty(prev.enums, next.enums, name, f) {
        assert !Faulty(prev, next, EnumError(name, f));
      }
      forall name | name in prev.services ensures name in next.services {
        assert !Faulty(prev, next, ServiceError(name, ServiceRemoved));
      }
      forall name, rpc | name in prev.services && rpc in prev.services[name]
        ensures rpc in next.services[name] && next.services[name][rpc] == prev.services[name][rpc]
      {
        assert !Faulty(prev, next, ServiceError(name, RpcRemoved(rpc)));
        assert !Faulty(prev, next, ServiceError(name, SignatureChanged(rpc)));
        assert !Faulty(prev, next, ServiceError(name, PolicyChanged(rpc)));
      }
    }
  }

  // ---------------------------------------------------------------------------
  // Safety over a chain of releases

  /** What protoc accepts: reserved ranges hold a number, and no member uses a
      number or a name that its own block reserves. */
  ghost predicate WellFormedBlock(block: Block) {
    && (forall range :: range in block.reservedRanges ==> range.start < range.end)
    && (forall number :: number in block.members ==>
          && !Reserves(block.reservedRanges, number)
          && block.members[number].name !in block.reservedNames)
  }

  ghost predicate WellFormed(lock: Lock) {
    && (forall name :: name in lock.messages ==> WellFormedBlock(lock.messages[name]))
    && (forall name :: name in lock.enums ==> WellFormedBlock(lock.enums[name]))
  }

  lemma BlockCompatibleTransitive(a: Block, b: Block, c: Block)
    requires WellFormedBlock(a) && WellFormedBlock(b) && WellFormedBlock(c)
    requires BlockCompatible(a, b) && BlockCompatible(b, c)
    ensures BlockCompatible(a, c)
  {
  }

  /** Compatibility with the previous release is compatibility with every earlier one. */
  lemma CompatibleTransitive(a: Lock, b: Lock, c: Lock)
    requires WellFormed(a) && WellFormed(b) && WellFormed(c)
    requires Compatible(a, b) && Compatible(b, c)
    ensures Compatible(a, c)
  {
    forall name | name in a.messages ensures name in c.messages && BlockCompatible(a.messages[name], c.messages[name]) {
      BlockCompatibleTransitive(a.messages[name], b.messages[name], c.messages[name]);
    }
    forall name | name in a.enums ensures name in c.enums && BlockCompatible(a.enums[name], c.enums[name]) {
      BlockCompatibleTransitive(a.enums[name], b.enums[name], c.enums[name]);
    }
  }

  /** Releases in order, each accepted by the checker against its predecessor only. */
  ghost predicate History(locks: seq<Lock>) {
    && (forall i :: 0 <= i < |locks| ==> WellFormed(locks[i]))
    && (forall i :: 0 < i < |locks| ==> Compatible(locks[i - 1], locks[i]))
  }

  lemma Neighbours(locks: seq<Lock>, i: nat, j: nat)
    requires History(locks) && i < j < |locks|
    ensures WellFormed(locks[i]) && WellFormed(locks[j - 1]) && WellFormed(locks[j])
    ensures Compatible(locks[j - 1], locks[j])
  {
  }

  /** One more release, after any earlier one. */
  lemma OneRelease(locks: seq<Lock>, i: nat, j: nat)
    requires History(locks) && i < j - 1 && j < |locks| && Compatible(locks[i], locks[j - 1])
    ensures Compatible(locks[i], locks[j])
  {
    Neighbours(locks, i, j);
    CompatibleTransitive(locks[i], locks[j - 1], locks[j]);
  }

  lemma {:induction false} HistoryCompatible(locks: seq<Lock>, i: nat, j: nat)
    requires History(locks) && i < j < |locks|
    ensures Compatible(locks[i], locks[j])
    decreases j
  {
    if i < j - 1 {
      HistoryCompatible(locks, i, j - 1);
      OneRelease(locks, i, j);
    } else {
      Neighbours(locks, i, j);
    }
  }

  /** Over any history: a number once used for a member never means anything else, and
      once the member is gone neither its number nor its name is used again. */
  ghost predicate MemberSafe(used: Block, number: int, later: Block, last: Block) {
    number in used.members ==>
      && (number in last.members ==> last.members[number] == used.members[number])
      && (number !in later.members ==>
            && number !in last.members
            && (forall n :: n in last.members ==> last.members[n].name != used.members[number].name))
  }

  lemma BlockHistorySafe(a: Block, b: Block, c: Block, number: int)
    requires WellFormedBlock(a) && WellFormedBlock(b) && WellFormedBlock(c)
    requires BlockCompatible(a, b) && BlockCompatible(a, c) && (b == c || BlockCompatible(b, c))
    ensures MemberSafe(a, number, b, c)
  {
  }

  ghost predicate BlocksSafe(used: map<string, Block>, number: int, later: map<string, Block>, last: map<string, Block>)
  {
    forall name :: name in used ==>
      name in later && name in last && MemberSafe(used[name], number, later[name], last[name])
  }

  lemma BlocksHistorySafe(a: map<string, Block>, b: map<string, Block>, c: map<string, Block>, number: int)
    requires forall name :: name in a ==> WellFormedBlock(a[name])
    requires forall name :: name in b ==> WellFormedBlock(b[name])
    requires forall name :: name in c ==> WellFormedBlock(c[name])
    requires BlocksCompatible(a, b) && BlocksCompatible(a, c) && (b == c || BlocksCompatible(b, c))
    ensures BlocksSafe(a, number, b, c)
  {
    forall name | name in a
      ensures name in b && name in c && MemberSafe(a[name], number, b[name], c[name])
    {
      BlockHistorySafe(a[name], b[name], c[name], number);
    }
  }

  lemma HistorySafe(locks: seq<Lock>, i: nat, j: nat, k: nat, number: int)
    requires History(locks) && i < j <= k < |locks|
    ensures BlocksSafe(locks[i].messages, number, locks[j].messages, locks[k].messages)
    ensures BlocksSafe(locks[i].enums, number, locks[j].enums, locks[k].enums)
  {
    HistoryCompatible(locks, i, j);
    if j < k { HistoryCompatible(locks, j, k); }
    HistoryCompatible(locks, i, k);
    BlocksHistorySafe(locks[i].messages, locks[j].messages, locks[k].messages, number);
    BlocksHistorySafe(locks[i].enums, locks[j].enums, locks[k].enums, number);
  }

  // ---------------------------------------------------------------------------
  // Where the checker is stricter or laxer than the reservations it guards

  /** An unchanged block passes the checker against itself unless one of its reserved
      ranges is empty, some range reaches past its start, and none contains its start. */
  lemma SelfCompatibleIff(block: Block)
    ensures BlockCompatible(block, block) <==>
      forall range :: range in block.reservedRanges && range.end <= range.start ==>
        || (forall other :: other in block.reservedRanges ==> other.end <= range.start)
        || Reserves(block.reservedRanges, range.start)
  {
  }

  lemma EmptyRangeCanBeRefused()
    ensures var block := Block(map[], [NumberRange(5, 5), NumberRange(7, 9)], []);
            !BlockCompatible(block, block)
  {
    var block := Block(map[], [NumberRange(5, 5), NumberRange(7, 9)], []);
    SelfCompatibleIff(block);
    assert NumberRange(5, 5) in block.reservedRanges && NumberRange(7, 9) in block.reservedRanges;
    assert !Reserves(block.reservedRanges, 5);
  }

  const I32_MAX := 0x7FFF_FFFF

  /** A descriptor's enum reservation is inclusive; the lock stores `end.saturating_add(1)`. */
  function SnapshotEnumRange(start: int, last: int): (range: NumberRange)
    requires last <= I32_MAX
    ensures forall number :: Contains(range, number) <==> start <= number <= last && number != I32_MAX
  {
    NumberRange(start, if last < I32_MAX then last + 1 else I32_MAX)
  }
}
