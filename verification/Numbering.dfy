/** Code-first numbering of message fields and enum values
    (crates/moonlight-bridge-codegen/src/source.rs), checked against the schema lock.

    `generate_message` and `generate_enum` share one algorithm and differ in the first
    number they try and in the zero-value rule; both are here. The text they print is
    kept as the numbers and names it declares. */
module Numbering {
  import opened Common
  import opened Schema

  /** The generator's own reading of one locked block. */
  datatype Previous = Previous(members: map<int, string>, reservedNumbers: set<int>, reservedNames: set<string>)

  /** One declaration as printed: `reserved n;`, `reserved "name";`, `name = n;`. */
  datatype Declared = Declared(reservedNumbers: seq<int>, reservedNames: seq<string>, members: seq<(string, int)>)

  predicate Avoided(number: int) {
    19_000 <= number <= 19_999
  }

  // ---------------------------------------------------------------------------
  // Loading the lock

  /** `previous` says about numbers and names what the lock's `block` says. */
  ghost predicate Reads(block: Block, previous: Previous) {
    && previous.members.Keys == block.members.Keys
    && (forall n :: n in block.members ==> previous.members[n] == block.members[n].name)
    && (forall n :: n in previous.reservedNumbers <==> Reserves(block.reservedRanges, n))
    && (forall name :: name in previous.reservedNames <==> name in block.reservedNames)
  }

  lemma ReservesAppend(ranges: seq<NumberRange>, last: NumberRange, n: int)
    ensures Reserves(ranges + [last], n) <==> Reserves(ranges, n) || Contains(last, n)
  {
  }

  predicate Fits32(n: int) {
    -0x8000_0000 <= n <= I32_MAX
  }

  /** A JSON integer cast to 32 bits. */
  function Wrap32(n: int): (r: int)
    ensures Fits32(r) && (Fits32(n) ==> r == n)
  {
    (n + 0x8000_0000) % 0x1_0000_0000 - 0x8000_0000
  }

  function Truncated(range: NumberRange): NumberRange {
    NumberRange(Wrap32(range.start), Wrap32(range.end))
  }

  function TruncatedBlock(block: Block): Block {
    block.(reservedRanges := seq(|block.reservedRanges|, i requires 0 <= i < |block.reservedRanges| =>
      Truncated(block.reservedRanges[i])))
  }

  predicate RangesFit32(block: Block) {
    forall range :: range in block.reservedRanges ==> Fits32(range.start) && Fits32(range.end)
  }

  /** A member number that does not fit 32 bits is refused, the ends of a reserved range are
      cut down to them. A lock within 32 bits is read as it stands. */
  method LoadBlock(block: Block) returns (previous: Option<Previous>)
    ensures previous.Some? <==> forall n :: n in block.members ==> Fits32(n)
    ensures previous.Some? ==> Reads(TruncatedBlock(block), previous.value)
    ensures previous.Some? && RangesFit32(block) ==> Reads(block, previous.value)
  {
    if exists n :: n in block.members && !Fits32(n) {
      return None;
    }
    var numbers := {};
    ghost var ranges := TruncatedBlock(block).reservedRanges;
    for i := 0 to |block.reservedRanges|
      invariant forall n :: n in numbers <==> Reserves(ranges[..i], n)
    {
      numbers := AddRange(numbers, Truncated(block.reservedRanges[i]));
      assert ranges[..i + 1] == ranges[..i] + [ranges[i]];
      forall n ensures n in numbers <==> Reserves(ranges[..i + 1], n) {
        ReservesAppend(ranges[..i], ranges[i], n);
      }
    }
    assert ranges[..|ranges|] == ranges;
    if RangesFit32(block) {
      assert forall i :: 0 <= i < |ranges| ==> block.reservedRanges[i] in block.reservedRanges;
      assert ranges == block.reservedRanges;
    }
    previous := Some(Previous(map n | n in block.members :: block.members[n].name, numbers,
                              set name | name in block.reservedNames));
  }

  /** `numbers.extend(start..end)`. */
  method AddRange(numbers: set<int>, range: NumberRange) returns (more: set<int>)
    ensures forall n :: n in more <==> n in numbers || Contains(range, n)
  {
    more := numbers;
    var next := range.start;
    while next < range.end
      invariant range.start <= next && (range.start < next ==> next <= range.end)
      invariant forall n :: n in more <==> n in numbers || range.start <= n < next
    {
      more := more + {next};
      next := next + 1;
    }
  }

  // ---------------------------------------------------------------------------
  // Choosing numbers

  ghost predicate Free(used: set<int>, number: int) {
    number !in used && !Avoided(number)
  }

  ghost predicate LeastFree(used: set<int>, first: int, number: int) {
    first <= number && Free(used, number) && forall n :: first <= n < number ==> !Free(used, n)
  }

  function From(used: set<int>, candidate: int): set<int> {
    set n | n in used && candidate <= n
  }

  /** `next_number` tries from 1, `next_enum_number` from 0. The 32-bit counter of the source
      stays in range exactly when there is a free number of 32 bits. */
  method NextNumber(used: set<int>, first: int) returns (candidate: int)
    ensures LeastFree(used, first, candidate)
    ensures candidate <= I32_MAX <==> exists n :: first <= n <= I32_MAX && Free(used, n)
  {
    candidate := first;
    while candidate in used || Avoided(candidate)
      invariant first <= candidate
      invariant forall n :: first <= n < candidate ==> !Free(used, n)
      decreases |From(used, candidate)| + (if candidate < 20_000 then 20_000 - candidate else 0)
    {
      assert From(used, candidate + 1) == From(used, candidate) - {candidate};
      candidate := candidate + 1;
    }
    assert Free(used, candidate);
  }

  /** The number a name already has; the lowest one if the lock repeats a name. */
  ghost predicate Retains(members: map<int, string>, name: string, number: int) {
    number in members && members[number] == name &&
    forall n :: n in members && members[n] == name ==> number <= n
  }

  method FindNumber(members: map<int, string>, name: string) returns (found: Option<int>)
    ensures found.None? <==> forall n :: n in members ==> members[n] != name
    ensures found.Some? ==> Retains(members, name, found.value)
  {
    found := None;
    var todo := members.Keys;
    while todo != {}
      invariant todo <= members.Keys
      invariant found.None? <==> forall n :: n in members && n !in todo ==> members[n] != name
      invariant found.Some? ==> found.value in members && members[found.value] == name
      invariant found.Some? ==>
        forall n :: n in members && n !in todo && members[n] == name ==> found.value <= n
      decreases todo
    {
      assert (forall n :: n !in todo) ==> todo == {};
      var n :| n in todo;
      if members[n] == name && (found.None? || n < found.value) {
        found := Some(n);
      }
      todo := todo - {n};
    }
  }

  ghost function Taken(previous: Previous, members: seq<(string, int)>): set<int> {
    previous.members.Keys + previous.reservedNumbers + set i | 0 <= i < |members| :: members[i].1
  }

  /** The i-th declared name keeps its locked number, or gets the least number not
      locked, not reserved, not avoided and not given to an earlier name. */
  ghost predicate Assigned(previous: Previous, first: int, members: seq<(string, int)>, i: int)
    requires 0 <= i < |members|
  {
    if exists n :: n in previous.members && previous.members[n] == members[i].0 then
      Retains(previous.members, members[i].0, members[i].1)
    else
      LeastFree(Taken(previous, members[..i]), first, members[i].1)
  }

  ghost predicate Numbered(previous: Previous, first: int, names: seq<string>, members: seq<(string, int)>) {
    && |members| == |names|
    && forall i :: 0 <= i < |members| ==> members[i].0 == names[i] && Assigned(previous, first, members, i)
  }

  method AssignNumbers(previous: Previous, first: int, names: seq<string>) returns (members: seq<(string, int)>)
    ensures Numbered(previous, first, names, members)
  {
    members := [];
    var used := previous.members.Keys + previous.reservedNumbers;
    for i := 0 to |names|
      invariant Numbered(previous, first, names[..i], members)
      invariant used == Taken(previous, members)
    {
      var found := FindNumber(previous.members, names[i]);
      var number;
      if found.Some? {
        number := found.value;
      } else {
        number := NextNumber(used, first);
      }
      NumberedAppend(previous, first, names, members, number);
      TakenAppend(previous, members, (names[i], number));
      members := members + [(names[i], number)];
      used := used + {number};
    }
    assert names[..|names|] == names;
  }

  /** The rule for the next name alone. */
  ghost predicate NextAssigned(previous: Previous, first: int, members: seq<(string, int)>, name: string, number: int) {
    if exists n :: n in previous.members && previous.members[n] == name then Retains(previous.members, name, number)
    else LeastFree(Taken(previous, members), first, number)
  }

  lemma NumberedAppend(previous: Previous, first: int, names: seq<string>, members: seq<(string, int)>, number: int)
    requires |members| < |names| && Numbered(previous, first, names[..|members|], members)
    requires NextAssigned(previous, first, members, names[|members|], number)
    ensures Numbered(previous, first, names[..|members| + 1], members + [(names[|members|], number)])
  {
    var more := members + [(names[|members|], number)];
    forall j | 0 <= j < |more| ensures more[j].0 == names[j] && Assigned(previous, first, more, j) {
      if j < |members| {
        assert more[..j] == members[..j];
        assert Assigned(previous, first, members, j);
      } else {
        assert more[..j] == members;
      }
    }
  }

  lemma TakenAppend(previous: Previous, members: seq<(string, int)>, member: (string, int))
    ensures Taken(previous, members + [member]) == Taken(previous, members) + {member.1}
  {
    var more := members + [member];
    forall n | n in Taken(previous, members) ensures n in Taken(previous, more) {
      if n !in previous.members.Keys + previous.reservedNumbers {
        var j :| 0 <= j < |members| && members[j].1 == n;
        assert more[j].1 == n;
      }
    }
    assert more[|members|].1 == member.1;
    forall n | n in Taken(previous, more) && n != member.1 ensures n in Taken(previous, members) {
      if n !in previous.members.Keys + previous.reservedNumbers {
        var j :| 0 <= j < |more| && more[j].1 == n;
        assert members[j].1 == n;
      }
    }
  }

  // ---------------------------------------------------------------------------
  // What the numbers guarantee

  /** A name the lock does not know never gets a number it locked, reserved or avoids. */
  lemma FreshNumbersAvoid(previous: Previous, first: int, names: seq<string>, members: seq<(string, int)>, i: nat)
    requires Numbered(previous, first, names, members) && i < |names|
    requires forall n :: n in previous.members ==> previous.members[n] != names[i]
    ensures first <= members[i].1 && !(19_000 <= members[i].1 <= 19_999)
    ensures members[i].1 !in previous.members && members[i].1 !in previous.reservedNumbers
    ensures forall n :: first <= n < members[i].1 ==>
      || n in previous.members || n in previous.reservedNumbers || 19_000 <= n <= 19_999
      || exists j :: 0 <= j < i && members[j].1 == n
  {
    forall n | first <= n < members[i].1
      ensures
        || n in previous.members || n in previous.reservedNumbers || 19_000 <= n <= 19_999
        || exists j :: 0 <= j < i && members[j].1 == n
    {
      assert !Free(Taken(previous, members[..i]), n);
    }
  }

  ghost predicate DistinctNames(names: seq<string>) {
    forall i, j :: 0 <= i < j < |names| ==> names[i] != names[j]
  }

  ghost predicate DistinctNumbers(members: seq<(string, int)>) {
    forall i, j :: 0 <= i < j < |members| ==> members[i].1 != members[j].1
  }

  lemma AllNumbersDistinct(previous: Previous, first: int, names: seq<string>, members: seq<(string, int)>)
    requires Numbered(previous, first, names, members) && DistinctNames(names)
    ensures DistinctNumbers(members)
  {
  }

  // ---------------------------------------------------------------------------
  // The declaration and the lock made from it

  /** What a declaration reserves: each member whose name is gone, then everything reserved before. */
  ghost predicate ReservesRemoved(previous: Previous, names: seq<string>, declared: Declared) {
    && (forall n :: n in declared.reservedNumbers <==>
          n in previous.reservedNumbers || (n in previous.members && previous.members[n] !in names))
    && (forall name :: name in declared.reservedNames <==>
          || name in previous.reservedNames
          || exists n :: n in previous.members && previous.members[n] == name && name !in names)
  }

  ghost predicate DeclaredFrom(previous: Previous, first: int, names: seq<string>, declared: Declared) {
    && ReservesRemoved(previous, names, declared)
    && Numbered(previous, first, names, declared.members)
  }

  method ReservationLines(previous: Previous, names: seq<string>) returns (numbers: seq<int>, reserved: seq<string>)
    ensures ReservesRemoved(previous, names, Declared(numbers, reserved, []))
  {
    numbers, reserved := [], [];
    var todo := previous.members.Keys;
    while todo != {}
      invariant todo <= previous.members.Keys
      invariant forall n :: n in numbers <==>
        n in previous.members && n !in todo && previous.members[n] !in names
      invariant forall name :: name in reserved <==>
        exists n :: n in previous.members && n !in todo && previous.members[n] == name && name !in names
      decreases todo
    {
      assert (forall n :: n !in todo) ==> todo == {};
      var n :| n in todo;
      if previous.members[n] !in names {
        numbers := numbers + [n];
        reserved := reserved + [previous.members[n]];
      }
      todo := todo - {n};
    }
    var numbersLeft := previous.reservedNumbers;
    while numbersLeft != {}
      invariant numbersLeft <= previous.reservedNumbers
      invariant forall n :: n in numbers <==>
        || (n in previous.reservedNumbers && n !in numbersLeft)
        || (n in previous.members && previous.members[n] !in names)
      decreases numbersLeft
    {
      assert (forall n :: n !in numbersLeft) ==> numbersLeft == {};
      var n :| n in numbersLeft;
      numbers := numbers + [n];
      numbersLeft := numbersLeft - {n};
    }
    var namesLeft := previous.reservedNames;
    while namesLeft != {}
      invariant namesLeft <= previous.reservedNames
      invariant forall name :: name in reserved <==>
        || (name in previous.reservedNames && name !in namesLeft)
        || exists n :: n in previous.members && previous.members[n] == name && name !in names
      decreases namesLeft
    {
      var name :| name in namesLeft;
      reserved := reserved + [name];
      namesLeft := namesLeft - {name};
    }
  }

  method GenerateMessage(previous: Previous, names: seq<string>) returns (declared: Declared)
    ensures DeclaredFrom(previous, 1, names, declared)
  {
    var numbers, reserved := ReservationLines(previous, names);
    var members := AssignNumbers(previous, 1, names);
    declared := Declared(numbers, reserved, members);
  }

  function InsertByNumber(member: (string, int), sorted: seq<(string, int)>): seq<(string, int)> {
    if sorted == [] || member.1 < sorted[0].1 then [member] + sorted
    else [sorted[0]] + InsertByNumber(member, sorted[1..])
  }

  /** `values.sort_by_key`: by number, equal numbers in declaration order. */
  function SortByNumber(members: seq<(string, int)>): seq<(string, int)> {
    if members == [] then []
    else InsertByNumber(members[|members| - 1], SortByNumber(members[..|members| - 1]))
  }

  ghost predicate Ascends(members: seq<(string, int)>) {
    forall i, j :: 0 <= i < j < |members| ==> members[i].1 <= members[j].1
  }

  lemma {:induction false} InsertByNumberSorts(member: (string, int), sorted: seq<(string, int)>)
    requires Ascends(sorted)
    ensures Ascends(InsertByNumber(member, sorted)) && |InsertByNumber(member, sorted)| == |sorted| + 1
    ensures forall m :: m in InsertByNumber(member, sorted) <==> m in sorted || m == member
  {
    if sorted != [] && member.1 >= sorted[0].1 {
      InsertByNumberSorts(member, sorted[1..]);
      var rest := InsertByNumber(member, sorted[1..]);
      assert sorted == [sorted[0]] + sorted[1..];
      forall i | 0 <= i < |rest| ensures sorted[0].1 <= rest[i].1 {
        assert rest[i] in rest;
      }
    }
  }

  lemma {:induction false} SortByNumberSorts(members: seq<(string, int)>)
    ensures Ascends(SortByNumber(members)) && |SortByNumber(members)| == |members|
    ensures forall m :: m in SortByNumber(members) <==> m in members
  {
    if members != [] {
      var front, last := members[..|members| - 1], members[|members| - 1];
      SortByNumberSorts(front);
      InsertByNumberSorts(last, SortByNumber(front));
      assert members == front + [last];
    }
  }

  lemma {:induction false} InsertByNumberDistinct(member: (string, int), sorted: seq<(string, int)>)
    requires Ascends(sorted) && DistinctNumbers(sorted) && forall m :: m in sorted ==> m.1 != member.1
    ensures DistinctNumbers(InsertByNumber(member, sorted))
  {
    if sorted != [] && member.1 >= sorted[0].1 {
      InsertByNumberDistinct(member, sorted[1..]);
      InsertByNumberSorts(member, sorted[1..]);
      var rest := InsertByNumber(member, sorted[1..]);
      forall i | 0 <= i < |rest| ensures rest[i].1 != sorted[0].1 {
        assert rest[i] in rest;
      }
    }
  }

  lemma {:induction false} SortByNumberDistinct(members: seq<(string, int)>)
    requires DistinctNumbers(members)
    ensures DistinctNumbers(SortByNumber(members))
  {
    if members != [] {
      var front, last := members[..|members| - 1], members[|members| - 1];
      SortByNumberDistinct(front);
      SortByNumberSorts(front);
      InsertByNumberDistinct(last, SortByNumber(front));
    }
  }

  /** The values as numbered, and the declaration that prints them in ascending order; refused
      exactly when there are values and the lowest number is not zero. */
  method GenerateEnum(previous: Previous, names: seq<string>)
    returns (given: seq<(string, int)>, declared: Option<Declared>)
    ensures Numbered(previous, 0, names, given)
    ensures declared.None? <==>
      names != [] && ((exists m :: m in given && m.1 < 0) || (forall m :: m in given ==> m.1 != 0))
    ensures declared.Some? ==>
      && ReservesRemoved(previous, names, declared.value)
      && declared.value.members == SortByNumber(given)
      && Ascends(declared.value.members) && |declared.value.members| == |given|
      && (forall m :: m in declared.value.members <==> m in given)
  {
    given := AssignNumbers(previous, 0, names);
    var values := SortByNumber(given);
    SortByNumberSorts(given);
    assert values != [] ==> values[0] in values;
    assert forall m :: m in values ==> values[0].1 <= m.1;
    if values != [] && values[0].1 != 0 {
      return given, None;
    }
    var numbers, reserved := ReservationLines(previous, names);
    declared := Some(Declared(numbers, reserved, values));
  }

  // ---------------------------------------------------------------------------
  // The lock taken from a declaration

  /** The locked range of one `reserved n;` line. An enum's is inclusive in the descriptor
      and loses the largest 32-bit number on its way into the lock. */
  function LineRange(isEnum: bool, n: int): NumberRange {
    if isEnum && n <= I32_MAX then SnapshotEnumRange(n, n) else NumberRange(n, n + 1)
  }

  predicate IsOptional(member: Member) {
    member.Field? && member.proto3Optional
  }

  /** How many of the names are declared optional. */
  function Optionals(names: seq<string>, describe: string -> Member): nat {
    if names == [] then 0
    else Optionals(names[..|names| - 1], describe) + if IsOptional(describe(names[|names| - 1])) then 1 else 0
  }

  /** Every optional field gets a oneof of its own, numbered in declaration order. */
  function OneofOf(names: seq<string>, describe: string -> Member, i: nat): Option<int>
    requires i < |names|
  {
    if IsOptional(describe(names[i])) then Some(Optionals(names[..i], describe)) else None
  }

  /** The oneofs of the optional fields are 0, 1, 2 and so on. */
  lemma {:induction false} OneofsCountUp(names: seq<string>, describe: string -> Member, i: nat, j: nat)
    requires i < j < |names| && IsOptional(describe(names[i])) && IsOptional(describe(names[j]))
    ensures OneofOf(names, describe, i).value < OneofOf(names, describe, j).value < Optionals(names, describe)
    ensures (forall k :: i < k < j ==> !IsOptional(describe(names[k]))) ==>
      OneofOf(names, describe, j).value == OneofOf(names, describe, i).value + 1
    ensures (forall k :: 0 <= k < i ==> !IsOptional(describe(names[k]))) ==> OneofOf(names, describe, i).value == 0
  {
    OptionalsBetween(names, describe, 0, i);
    OptionalsBetween(names, describe, i + 1, j);
    OptionalsBetween(names, describe, j + 1, |names|);
    OneMoreOptional(names, describe, i);
    OneMoreOptional(names, describe, j);
    assert names[..|names|] == names;
  }

  lemma OneMoreOptional(names: seq<string>, describe: string -> Member, i: nat)
    requires i < |names|
    ensures Optionals(names[..i + 1], describe) ==
      Optionals(names[..i], describe) + if IsOptional(describe(names[i])) then 1 else 0
  {
    assert names[..i + 1][..i] == names[..i];
  }

  lemma {:induction false} OptionalsBetween(names: seq<string>, describe: string -> Member, i: nat, j: nat)
    requires i <= j <= |names|
    ensures Optionals(names[..i], describe) <= Optionals(names[..j], describe)
    ensures (forall k :: i <= k < j ==> !IsOptional(describe(names[k]))) ==>
      Optionals(names[..i], describe) == Optionals(names[..j], describe)
    decreases j
  {
    if i < j {
      OptionalsBetween(names, describe, i, j - 1);
      OneMoreOptional(names, describe, j - 1);
    }
  }

  /** What the descriptor adds to a declared type: the number and the oneof. */
  function Placed(member: Member, n: int, oneof: Option<int>): Member {
    if member.Field? then member.(number := n, oneofIndex := oneof) else member
  }

  function NamesOf(members: seq<(string, int)>): (names: seq<string>)
    ensures |names| == |members| && forall i :: 0 <= i < |members| ==> names[i] == members[i].0
  {
    seq(|members|, i requires 0 <= i < |members| => members[i].0)
  }

  function LockedMembers(members: seq<(string, int)>, describe: string -> Member): map<int, Member>
    requires DistinctNumbers(members)
  {
    map i | 0 <= i < |members| ::
      members[i].1 := Placed(describe(members[i].0), members[i].1, OneofOf(NamesOf(members), describe, i))
  }

  function LockedRanges(isEnum: bool, numbers: seq<int>): seq<NumberRange> {
    seq(|numbers|, i requires 0 <= i < |numbers| => LineRange(isEnum, numbers[i]))
  }

  /** The lock taken from a declaration. `describe` is the declared type of a name. */
  function Relock(isEnum: bool, declared: Declared, describe: string -> Member): Block
    requires DistinctNumbers(declared.members)
  {
    Block(LockedMembers(declared.members, describe), LockedRanges(isEnum, declared.reservedNumbers),
          declared.reservedNames)
  }

  ghost predicate Names(describe: string -> Member) {
    forall name :: describe(name).name == name
  }

  /** The declared type of a name is the locked one; where the field stands is not compared. */
  ghost predicate Unchanged(block: Block, names: seq<string>, describe: string -> Member) {
    && Names(describe)
    && forall n :: n in block.members && block.members[n].name in names ==>
         SameType(describe(block.members[n].name), n, block.members[n])
  }

  predicate SameType(described: Member, n: int, locked: Member) {
    && described.Field? == locked.Field?
    && (locked.Field? ==> locked == Placed(described, n, locked.oneofIndex))
    && (locked.EnumValue? ==> locked == described)
  }

  /** Every retained field has the oneof the lock has: an optional one with that many
      optional names declared before it, any other with none. */
  ghost predicate OneofsStay(block: Block, names: seq<string>, describe: string -> Member) {
    forall i, n :: 0 <= i < |names| && n in block.members ==>
      var m := block.members[n];
      m.Field? && m.name == names[i] ==> m.oneofIndex == OneofOf(names, describe, i)
  }

  ghost predicate UniqueNames(block: Block) {
    forall m, n :: m in block.members && n in block.members && block.members[m].name == block.members[n].name ==> m == n
  }

  ghost predicate Within32Bits(block: Block) {
    && (forall n :: n in block.members ==> n <= I32_MAX)
    && (forall range :: range in block.reservedRanges ==> range.end <= I32_MAX)
  }

  /** The enum value whose reservation the lock cannot hold. */
  ghost predicate DropsLargest(isEnum: bool, block: Block, names: seq<string>) {
    isEnum && I32_MAX in block.members && block.members[I32_MAX].name !in names
  }

  lemma RelockReserves(isEnum: bool, declared: Declared, describe: string -> Member, n: int)
    requires DistinctNumbers(declared.members)
    requires forall r :: r in declared.reservedNumbers ==> r <= I32_MAX
    ensures Reserves(Relock(isEnum, declared, describe).reservedRanges, n) <==>
            n in declared.reservedNumbers && !(isEnum && n == I32_MAX)
  {
    var ranges := Relock(isEnum, declared, describe).reservedRanges;
    if Reserves(ranges, n) {
      var range :| range in ranges && Contains(range, n);
      var i :| 0 <= i < |ranges| && ranges[i] == range;
      assert declared.reservedNumbers[i] == n;
    }
    if n in declared.reservedNumbers && !(isEnum && n == I32_MAX) {
      var i :| 0 <= i < |declared.reservedNumbers| && declared.reservedNumbers[i] == n;
      assert Contains(ranges[i], n) && ranges[i] in ranges;
    }
  }

  lemma RelockHolds(isEnum: bool, declared: Declared, describe: string -> Member, i: nat)
    requires DistinctNumbers(declared.members) && i < |declared.members|
    ensures var (name, n) := declared.members[i]; var relock := Relock(isEnum, declared, describe);
      && n in relock.members
      && relock.members[n] == Placed(describe(name), n, OneofOf(NamesOf(declared.members), describe, i))
  {
  }

  lemma RelockOrigin(isEnum: bool, declared: Declared, describe: string -> Member, n: int) returns (i: nat)
    requires DistinctNumbers(declared.members) && n in Relock(isEnum, declared, describe).members
    ensures i < |declared.members| && declared.members[i].1 == n
    ensures Relock(isEnum, declared, describe).members[n] ==
      Placed(describe(declared.members[i].0), n, OneofOf(NamesOf(declared.members), describe, i))
  {
    i :| 0 <= i < |declared.members| && declared.members[i].1 == n;
    RelockHolds(isEnum, declared, describe, i);
  }

  ghost predicate DescribesValues(describe: string -> Member) {
    forall name :: describe(name).EnumValue?
  }

  /** Sorting an enum's values does not matter to its lock. */
  lemma EnumOrderIrrelevant(declared: Declared, given: seq<(string, int)>, describe: string -> Member)
    requires DistinctNumbers(given) && declared.members == SortByNumber(given) && DescribesValues(describe)
    ensures DistinctNumbers(declared.members)
    ensures Relock(true, declared, describe) == Relock(true, declared.(members := given), describe)
  {
    SortByNumberDistinct(given);
    SortByNumberSorts(given);
    SameMembers(declared.members, given, describe);
  }

  lemma SameMembers(a: seq<(string, int)>, b: seq<(string, int)>, describe: string -> Member)
    requires DistinctNumbers(a) && DistinctNumbers(b) && DescribesValues(describe)
    requires forall m :: m in a <==> m in b
    ensures LockedMembers(a, describe) == LockedMembers(b, describe)
  {
    MembersWithin(a, b, describe);
    MembersWithin(b, a, describe);
  }

  /** The values of one list are locked as in any other list that holds all of them. */
  lemma MembersWithin(a: seq<(string, int)>, b: seq<(string, int)>, describe: string -> Member)
    requires DistinctNumbers(a) && DistinctNumbers(b) && DescribesValues(describe)
    requires forall m :: m in a ==> m in b
    ensures var x, y := LockedMembers(a, describe), LockedMembers(b, describe);
      forall n :: n in x ==> n in y && y[n] == x[n]
  {
    var x, y := LockedMembers(a, describe), LockedMembers(b, describe);
    forall n | n in x ensures n in y && y[n] == x[n] {
      var i :| 0 <= i < |a| && a[i].1 == n;
      ValueLocked(a, a[i], describe);
      ValueLocked(b, a[i], describe);
    }
  }

  lemma ValueLocked(members: seq<(string, int)>, member: (string, int), describe: string -> Member)
    requires DistinctNumbers(members) && member in members && DescribesValues(describe)
    ensures member.1 in LockedMembers(members, describe)
    ensures LockedMembers(members, describe)[member.1] == describe(member.0)
  {
    var j :| 0 <= j < |members| && members[j] == member;
    assert members[j].1 in LockedMembers(members, describe);
  }

  // ---------------------------------------------------------------------------
  // What the generator guarantees

  /** A declared name that is in the lock has the lock's number. */
  lemma KeepsNumber(previous: Previous, first: int, members: seq<(string, int)>, block: Block, i: nat, n: int)
    requires UniqueNames(block) && Reads(block, previous) && n in block.members
    requires i < |members| && Assigned(previous, first, members, i) && members[i].0 == block.members[n].name
    ensures members[i].1 == n
  {
  }

  /** A declared name that has a locked number is the name the lock has under it. */
  lemma KeepsName(previous: Previous, first: int, members: seq<(string, int)>, block: Block, i: nat, n: int)
    requires Reads(block, previous) && n in block.members
    requires i < |members| && Assigned(previous, first, members, i) && members[i].1 == n
    ensures members[i].0 == block.members[n].name
  {
  }

  /** A locked member is in the new lock exactly when its name is declared, and then it is the
      same exactly when its oneof stays. */
  lemma RelockMember(isEnum: bool, previous: Previous, first: int, names: seq<string>, declared: Declared,
                     describe: string -> Member, block: Block, n: int)
    requires UniqueNames(block) && Reads(block, previous)
    requires DistinctNames(names) && DeclaredFrom(previous, first, names, declared) && Unchanged(block, names, describe)
    requires n in block.members
    ensures DistinctNumbers(declared.members)
    ensures n in Relock(isEnum, declared, describe).members <==> block.members[n].name in names
    ensures forall i :: 0 <= i < |names| && names[i] == block.members[n].name ==>
      (Relock(isEnum, declared, describe).members[n] == block.members[n] <==>
        (block.members[n].Field? ==> block.members[n].oneofIndex == OneofOf(names, describe, i)))
  {
    AllNumbersDistinct(previous, first, names, declared.members);
    assert NamesOf(declared.members) == names;
    forall i | 0 <= i < |names| && names[i] == block.members[n].name
      ensures n in Relock(isEnum, declared, describe).members
      ensures Relock(isEnum, declared, describe).members[n] ==
        Placed(describe(names[i]), n, OneofOf(names, describe, i))
    {
      KeepsNumber(previous, first, declared.members, block, i, n);
      RelockHolds(isEnum, declared, describe, i);
    }
    if n in Relock(isEnum, declared, describe).members {
      var i := RelockOrigin(isEnum, declared, describe, n);
      KeepsName(previous, first, declared.members, block, i, n);
      assert names[i] == block.members[n].name;
    }
  }

  /** The reservations of the new lock cover the old ones, and every removed member but the
      largest enum value. */
  lemma RelockCovers(isEnum: bool, block: Block, previous: Previous, first: int, names: seq<string>,
                     declared: Declared, describe: string -> Member)
    requires WellFormedBlock(block) && Within32Bits(block) && Reads(block, previous)
    requires DeclaredFrom(previous, first, names, declared) && DistinctNumbers(declared.members)
    ensures var relock := Relock(isEnum, declared, describe);
      && (forall range :: range in block.reservedRanges ==> ReportedCovered(range, relock.reservedRanges))
      && (forall name :: name in block.reservedNames ==> name in relock.reservedNames)
      && (forall n :: n in block.members && block.members[n].name !in names ==>
            (IsReserved(n, block.members[n].name, relock) <==> !(isEnum && n == I32_MAX)))
  {
    var relock := Relock(isEnum, declared, describe);
    forall n
      ensures Reserves(relock.reservedRanges, n) <==> n in declared.reservedNumbers && !(isEnum && n == I32_MAX)
    {
      assert forall r :: r in declared.reservedNumbers ==> r <= I32_MAX;
      RelockReserves(isEnum, declared, describe, n);
    }
    forall range | range in block.reservedRanges ensures ReportedCovered(range, relock.reservedRanges) {
      forall n | Contains(range, n) ensures Reserves(relock.reservedRanges, n) {
        assert Reserves(block.reservedRanges, n);
      }
    }
    forall n | n in block.members && block.members[n].name !in names
      ensures IsReserved(n, block.members[n].name, relock) <==> !(isEnum && n == I32_MAX)
    {
      assert previous.members[n] == block.members[n].name;
    }
  }

  /** The new lock passes the checker against the old one if and only if no enum drops the
      value numbered 2147483647 and every retained field keeps its place among the optional
      ones. */
  lemma GeneratedPassesChecker(isEnum: bool, block: Block, previous: Previous, first: int, names: seq<string>,
                               declared: Declared, describe: string -> Member)
    requires WellFormedBlock(block) && UniqueNames(block) && Within32Bits(block) && Reads(block, previous)
    requires DistinctNames(names) && DeclaredFrom(previous, first, names, declared) && Unchanged(block, names, describe)
    ensures DistinctNumbers(declared.members)
    ensures BlockCompatible(block, Relock(isEnum, declared, describe)) <==>
            !DropsLargest(isEnum, block, names) && OneofsStay(block, names, describe)
  {
    AllNumbersDistinct(previous, first, names, declared.members);
    var relock := Relock(isEnum, declared, describe);
    RelockCovers(isEnum, block, previous, first, names, declared, describe);
    forall n | n in block.members
      ensures n in relock.members <==> block.members[n].name in names
      ensures forall i :: 0 <= i < |names| && names[i] == block.members[n].name ==>
        (relock.members[n] == block.members[n] <==>
          (block.members[n].Field? ==> block.members[n].oneofIndex == OneofOf(names, describe, i)))
    {
      RelockMember(isEnum, previous, first, names, declared, describe, block, n);
    }
  }

  lemma RelockDeclared(isEnum: bool, block: Block, previous: Previous, first: int, names: seq<string>,
                       declared: Declared, describe: string -> Member, i: nat)
    requires WellFormedBlock(block) && Within32Bits(block) && Reads(block, previous)
    requires DeclaredFrom(previous, first, names, declared) && DistinctNumbers(declared.members)
    requires i < |names| && Names(describe)
    ensures declared.members[i].1 in Relock(isEnum, declared, describe).members
    ensures Relock(isEnum, declared, describe).members[declared.members[i].1].name == names[i]
    ensures names[i] in declared.reservedNames <==> names[i] in block.reservedNames
    ensures !Reserves(Relock(isEnum, declared, describe).reservedRanges, declared.members[i].1)
  {
    assert forall r :: r in declared.reservedNumbers ==> r <= I32_MAX;
    var n := declared.members[i].1;
    RelockReserves(isEnum, declared, describe, n);
    RelockHolds(isEnum, declared, describe, i);
    assert Assigned(previous, first, declared.members, i);
    if n in previous.members {
      assert n in block.members && previous.members[n] in names;
    }
  }

  /** The new lock is well formed exactly when no declared name was reserved and no enum drops
      the value numbered 2147483647. */
  lemma GeneratedWellFormed(isEnum: bool, block: Block, previous: Previous, first: int, names: seq<string>,
                            declared: Declared, describe: string -> Member)
    requires WellFormedBlock(block) && Within32Bits(block) && Reads(block, previous)
    requires DeclaredFrom(previous, first, names, declared) && DistinctNumbers(declared.members) && Names(describe)
    ensures WellFormedBlock(Relock(isEnum, declared, describe)) <==>
      (forall i :: 0 <= i < |names| ==> names[i] !in block.reservedNames) && !DropsLargest(isEnum, block, names)
  {
    forall i | 0 <= i < |names|
      ensures Clear(Relock(isEnum, declared, describe), declared.members[i].1) <==> names[i] !in block.reservedNames
    {
      RelockDeclared(isEnum, block, previous, first, names, declared, describe, i);
    }
    RelockWellFormedIff(isEnum, declared, describe);
    LargestReservedIff(block, previous, names, declared);
  }

  lemma LargestReservedIff(block: Block, previous: Previous, names: seq<string>, declared: Declared)
    requires Within32Bits(block) && Reads(block, previous) && ReservesRemoved(previous, names, declared)
    ensures I32_MAX in declared.reservedNumbers <==> DropsLargest(true, block, names)
  {
  }

  /** What `GenerateEnum` declares, sorted as it is, passes the checker and is well formed
      under the same conditions. */
  lemma GeneratedEnumPasses(block: Block, previous: Previous, names: seq<string>, given: seq<(string, int)>,
                            declared: Declared, describe: string -> Member)
    requires WellFormedBlock(block) && UniqueNames(block) && Within32Bits(block) && Reads(block, previous)
    requires DistinctNames(names) && Numbered(previous, 0, names, given)
    requires ReservesRemoved(previous, names, declared) && declared.members == SortByNumber(given)
    requires Unchanged(block, names, describe) && DescribesValues(describe)
    ensures DistinctNumbers(declared.members)
    ensures BlockCompatible(block, Relock(true, declared, describe)) <==> !DropsLargest(true, block, names)
    ensures WellFormedBlock(Relock(true, declared, describe)) <==>
      (forall i :: 0 <= i < |names| ==> names[i] !in block.reservedNames) && !DropsLargest(true, block, names)
  {
    AllNumbersDistinct(previous, 0, names, given);
    EnumOrderIrrelevant(declared, given, describe);
    var unsorted := declared.(members := given);
    assert DeclaredFrom(previous, 0, names, unsorted);
    GeneratedPassesChecker(true, block, previous, 0, names, unsorted, describe);
    GeneratedWellFormed(true, block, previous, 0, names, unsorted, describe);
    ValuesHaveNoOneof(block, names, describe);
  }

  lemma ValuesHaveNoOneof(block: Block, names: seq<string>, describe: string -> Member)
    requires Unchanged(block, names, describe) && DescribesValues(describe)
    ensures OneofsStay(block, names, describe)
  {
  }

  lemma RelockWellFormedIff(isEnum: bool, declared: Declared, describe: string -> Member)
    requires DistinctNumbers(declared.members)
    ensures WellFormedBlock(Relock(isEnum, declared, describe)) <==>
      && (forall i :: 0 <= i < |declared.members| ==> Clear(Relock(isEnum, declared, describe), declared.members[i].1))
      && !(isEnum && I32_MAX in declared.reservedNumbers)
  {
    var relock := Relock(isEnum, declared, describe);
    forall i | 0 <= i < |declared.reservedNumbers|
      ensures relock.reservedRanges[i].start < relock.reservedRanges[i].end <==>
        !(isEnum && declared.reservedNumbers[i] == I32_MAX)
    {
    }
    forall i | 0 <= i < |declared.members| ensures declared.members[i].1 in relock.members {
      RelockHolds(isEnum, declared, describe, i);
    }
    assert forall i :: 0 <= i < |relock.reservedRanges| ==> relock.reservedRanges[i] in relock.reservedRanges;
  }

  /** Neither the number nor the name of a member is reserved by its own block. */
  ghost predicate Clear(block: Block, n: int) {
    n in block.members && !Reserves(block.reservedRanges, n) && block.members[n].name !in block.reservedNames
  }

  ghost predicate Locks(previous: Previous, name: string, n: int) {
    n in previous.members && previous.members[n] == name
  }

  /** What a reader of the new lock finds: each declared name under its number, and no other. */
  lemma RelockReads(isEnum: bool, declared: Declared, describe: string -> Member, relocked: Previous)
    requires DistinctNumbers(declared.members) && Names(describe)
    requires Reads(Relock(isEnum, declared, describe), relocked)
    ensures forall n, name :: Locks(relocked, name, n) <==> (name, n) in declared.members
  {
    forall n, name ensures Locks(relocked, name, n) <==> (name, n) in declared.members {
      if n in relocked.members {
        var i := RelockOrigin(isEnum, declared, describe, n);
        assert declared.members[i] == (relocked.members[n], n);
      }
      if (name, n) in declared.members {
        var i :| 0 <= i < |declared.members| && declared.members[i] == (name, n);
        RelockHolds(isEnum, declared, describe, i);
      }
    }
  }

  /** Generating again from the new lock, with the same names declared in any order,
      gives every name the number it had. */
  lemma RegenerationStable(first: int, names: seq<string>, declared: Declared, describe: string -> Member,
                           isEnum: bool, relocked: Previous, again: seq<string>, members: seq<(string, int)>,
                           i: nat, j: nat)
    requires DistinctNames(names) && DistinctNumbers(declared.members)
    requires |declared.members| == |names| && forall k :: 0 <= k < |names| ==> declared.members[k].0 == names[k]
    requires Names(describe)
    requires Reads(Relock(isEnum, declared, describe), relocked)
    requires Numbered(relocked, first, again, members)
    requires i < |names| && j < |again| && names[i] == again[j]
    ensures members[j] == declared.members[i]
  {
    RelockReads(isEnum, declared, describe, relocked);
    RetainsOnly(relocked, declared.members, declared.members[i]);
    assert Assigned(relocked, first, members, j);
  }

  /** A name that a reader of the lock finds once is retained under that number and no other. */
  lemma RetainsOnly(previous: Previous, members: seq<(string, int)>, member: (string, int))
    requires forall n, name :: Locks(previous, name, n) <==> (name, n) in members
    requires member in members && forall i, j :: 0 <= i < j < |members| ==> members[i].0 != members[j].0
    ensures Locks(previous, member.0, member.1)
    ensures forall n :: Retains(previous.members, member.0, n) ==> n == member.1
  {
    assert (member.0, member.1) in members;
    forall n | Retains(previous.members, member.0, n) ensures n == member.1 {
      assert Locks(previous, member.0, n);
      assert (member.0, n) in members;
    }
  }

  /** New names declared after all the old ones leave every oneof where it was. */
  lemma AppendingKeepsOneofs(isEnum: bool, declared: Declared, describe: string -> Member, names: seq<string>)
    requires DistinctNumbers(declared.members) && DistinctNames(names) && Names(describe)
    requires NamesOf(declared.members) <= names
    ensures OneofsStay(Relock(isEnum, declared, describe), names, describe)
  {
    var block := Relock(isEnum, declared, describe);
    forall i, n | 0 <= i < |names| && n in block.members && block.members[n].name == names[i] && block.members[n].Field?
      ensures block.members[n].oneofIndex == OneofOf(names, describe, i)
    {
      AppendingKeepsOneof(isEnum, declared, describe, names, i, n);
    }
  }

  lemma AppendingKeepsOneof(isEnum: bool, declared: Declared, describe: string -> Member, names: seq<string>,
                            i: nat, n: int)
    requires DistinctNumbers(declared.members) && DistinctNames(names) && Names(describe)
    requires NamesOf(declared.members) <= names && i < |names|
    requires n in Relock(isEnum, declared, describe).members
    requires var m := Relock(isEnum, declared, describe).members[n]; m.Field? && m.name == names[i]
    ensures Relock(isEnum, declared, describe).members[n].oneofIndex == OneofOf(names, describe, i)
  {
    var j := RelockOrigin(isEnum, declared, describe, n);
    assert names[j] == declared.members[j].0 == names[i];
    assert i == j && NamesOf(declared.members)[..i] == names[..i];
  }

  /** The largest enum value cannot be dropped: its reservation does not survive the lock. */
  lemma LargestEnumValueCannotBeDropped()
    ensures var block := Block(map[0 := EnumValue("NONE"), I32_MAX := EnumValue("LAST")], [], []);
            var declared := Declared([I32_MAX], ["LAST"], [("NONE", 0)]);
            var previous := Previous(map[0 := "NONE", I32_MAX := "LAST"], {}, {});
            && Reads(block, previous)
            && DeclaredFrom(previous, 0, ["NONE"], declared)
            && !BlockCompatible(block, Relock(true, declared, name => EnumValue(name)))
  {
    var block := Block(map[0 := EnumValue("NONE"), I32_MAX := EnumValue("LAST")], [], []);
    var declared := Declared([I32_MAX], ["LAST"], [("NONE", 0)]);
    var previous := Previous(map[0 := "NONE", I32_MAX := "LAST"], {}, {});
    assert previous.members[0] == "NONE" && previous.members[I32_MAX] == "LAST";
    assert Retains(previous.members, "NONE", 0);
    assert Assigned(previous, 0, declared.members, 0);
    LargestIsNeither(declared, name => EnumValue(name));
    assert I32_MAX in block.members;
  }

  /** In the new lock the largest value is neither a member nor reserved. */
  lemma LargestIsNeither(declared: Declared, describe: string -> Member)
    requires declared == Declared([I32_MAX], ["LAST"], [("NONE", 0)])
    ensures I32_MAX !in Relock(true, declared, describe).members
    ensures forall n :: !Reserves(Relock(true, declared, describe).reservedRanges, n)
  {
    forall n ensures !Reserves(Relock(true, declared, describe).reservedRanges, n) {
      RelockReserves(true, declared, describe, n);
    }
  }

  /** An optional string field, as declared. */
  function OptionalText(name: string): Member {
    Field(name, 0, 1, 9, "", None, true)
  }

  /** Two optional fields, the first of which is then dropped. */
  ghost predicate DropsFirstOptional(block: Block, previous: Previous, declared: Declared) {
    && block.members == map[1 := Placed(OptionalText("a"), 1, Some(0)), 2 := Placed(OptionalText("b"), 2, Some(1))]
    && block.reservedRanges == [] && block.reservedNames == []
    && previous == Previous(map[1 := "a", 2 := "b"], {}, {})
    && declared == Declared([1], ["a"], [("b", 2)])
  }

  lemma DropsFirstOptionalLock(block: Block, previous: Previous, declared: Declared)
    requires DropsFirstOptional(block, previous, declared)
    ensures WellFormedBlock(block) && UniqueNames(block) && Within32Bits(block) && Reads(block, previous)
    ensures Unchanged(block, ["b"], OptionalText)
  {
    assert block.members[1].name == "a" && block.members[2].name == "b" && "a" != "b";
    assert previous.members[1] == "a" && previous.members[2] == "b";
    assert previous.members.Keys == {1, 2} && block.members.Keys == {1, 2};
  }

  lemma DropsFirstOptionalDeclared(block: Block, previous: Previous, declared: Declared)
    requires DropsFirstOptional(block, previous, declared)
    ensures DeclaredFrom(previous, 1, ["b"], declared)
  {
    assert previous.members[1] == "a" && previous.members[2] == "b";
    assert Retains(previous.members, "b", 2);
    assert Assigned(previous, 1, declared.members, 0);
  }

  /** Dropping one of two optional fields moves the other one's oneof, and the checker refuses
      the generator's own output although no type changed. */
  lemma DroppedOptionalMovesOneof(block: Block, previous: Previous, declared: Declared)
    requires DropsFirstOptional(block, previous, declared)
    ensures DeclaredFrom(previous, 1, ["b"], declared) && Unchanged(block, ["b"], OptionalText)
    ensures DistinctNumbers(declared.members) && !BlockCompatible(block, Relock(false, declared, OptionalText))
  {
    DropsFirstOptionalLock(block, previous, declared);
    DropsFirstOptionalDeclared(block, previous, declared);
    assert block.members[2].name == ["b"][0] && block.members[2].oneofIndex != OneofOf(["b"], OptionalText, 0);
    GeneratedPassesChecker(false, block, previous, 1, ["b"], declared, OptionalText);
  }
}
