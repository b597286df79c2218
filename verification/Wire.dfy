/** Bytes and big-endian numbers. */
module Wire {

  type byte = b: int | 0 <= b < 256

  type bytes = seq<byte>

  /** The number of values `width` bytes can hold. */
  function Capacity(width: nat): nat {
    if width == 0 then 1 else 256 * Capacity(width - 1)
  }

  function BigEndian(n: nat, width: nat): (s: bytes)
    ensures |s| == width
  {
    if width == 0 then [] else BigEndian(n / 256, width - 1) + [n % 256]
  }

  function Number(s: bytes): nat {
    if s == [] then 0 else 256 * Number(s[..|s| - 1]) + s[|s| - 1]
  }

  lemma {:induction false} NumberBound(s: bytes)
    ensures Number(s) < Capacity(|s|)
  {
    if s != [] {
      NumberBound(s[..|s| - 1]);
    }
  }

  lemma {:induction false} NumberOfBigEndian(n: nat, width: nat)
    requires n < Capacity(width)
    ensures Number(BigEndian(n, width)) == n
  {
    if width > 0 {
      NumberOfBigEndian(n / 256, width - 1);
      assert BigEndian(n, width)[..width - 1] == BigEndian(n / 256, width - 1);
    }
  }

  lemma SplitNumber(high: nat, low: byte)
    ensures (256 * high + low) / 256 == high && (256 * high + low) % 256 == low
  {
  }

  lemma {:induction false} BigEndianOfNumber(s: bytes)
    ensures BigEndian(Number(s), |s|) == s
  {
    if s != [] {
      var front, low := s[..|s| - 1], s[|s| - 1];
      BigEndianOfNumber(front);
      SplitNumber(Number(front), low);
      assert BigEndian(Number(s), |s|) == BigEndian(Number(front), |front|) + [low];
      assert s == front + [low];
    }
  }

  lemma {:induction false} NumberOfCons(first: byte, s: bytes)
    ensures Number([first] + s) == first * Capacity(|s|) + Number(s)
  {
    if s == [] {
      assert [first] + s == [first] && [first][..0] == [];
    } else {
      var front, last := s[..|s| - 1], s[|s| - 1];
      NumberOfCons(first, front);
      assert ([first] + s)[..|s|] == [first] + front;
      TimesCapacity(first, |front|);
    }
  }

  lemma TimesCapacity(first: byte, width: nat)
    ensures 256 * (first * Capacity(width)) == first * Capacity(width + 1)
  {
  }

  /** The most significant byte comes first. */
  lemma SignificantFirst(first: byte, rest: nat, width: nat)
    requires rest < Capacity(width)
    ensures BigEndian(first * Capacity(width) + rest, width + 1) == [first] + BigEndian(rest, width)
  {
    var s := [first] + BigEndian(rest, width);
    NumberOfBigEndian(rest, width);
    NumberOfCons(first, BigEndian(rest, width));
    BigEndianOfNumber(s);
  }

  lemma Capacities()
    ensures Capacity(1) == 0x100 && Capacity(2) == 0x1_0000 && Capacity(4) == 0x1_0000_0000
    ensures Capacity(8) == 0x1_0000_0000_0000_0000
  {
  }

  /** Byte-wise lexicographic comparison: negative, zero or positive. */
  function Compare(a: bytes, b: bytes): int {
    if a == [] then (if b == [] then 0 else -1)
    else if b == [] then 1
    else if a[0] != b[0] then a[0] - b[0]
    else Compare(a[1..], b[1..])
  }

  /** The first difference decides, and a proper prefix comes first. */
  ghost predicate DiffersAt(a: bytes, b: bytes, i: int) {
    0 <= i < |a| && i < |b| && a[..i] == b[..i] && a[i] < b[i]
  }

  lemma {:induction false} CompareMeans(a: bytes, b: bytes)
    ensures Compare(a, b) < 0 <==> a < b || exists i :: DiffersAt(a, b, i)
  {
    if a != [] && b != [] {
      CompareMeans(a[1..], b[1..]);
      if a[0] == b[0] {
        assert a == [a[0]] + a[1..] && b == [b[0]] + b[1..];
        if i :| DiffersAt(a[1..], b[1..], i) {
          assert a[..i + 1] == [a[0]] + a[1..][..i] && b[..i + 1] == [b[0]] + b[1..][..i];
          assert DiffersAt(a, b, i + 1);
        }
        if i :| DiffersAt(a, b, i) {
          assert a[1..][..i - 1] == a[..i][1..] && b[1..][..i - 1] == b[..i][1..];
          assert DiffersAt(a[1..], b[1..], i - 1);
        }
      } else if a[0] < b[0] {
        assert DiffersAt(a, b, 0);
      } else {
        assert forall i :: 0 < i <= |a| && i <= |b| ==> a[..i][0] != b[..i][0];
      }
    }
  }

  lemma {:induction false} CompareEqual(a: bytes, b: bytes)
    ensures Compare(a, b) == 0 <==> a == b
  {
    if a != [] && b != [] && a[0] == b[0] {
      CompareEqual(a[1..], b[1..]);
      assert a == [a[0]] + a[1..] && b == [b[0]] + b[1..];
    }
  }

  lemma {:induction false} CompareTransitive(a: bytes, b: bytes, c: bytes)
    requires Compare(a, b) < 0 && Compare(b, c) < 0
    ensures Compare(a, c) < 0
  {
    if a != [] && b != [] && c != [] && a[0] == b[0] == c[0] {
      CompareTransitive(a[1..], b[1..], c[1..]);
    }
  }

  lemma {:induction false} CompareAntisymmetric(a: bytes, b: bytes)
    ensures Compare(a, b) < 0 <==> Compare(b, a) > 0
  {
    if a != [] && b != [] && a[0] == b[0] {
      CompareAntisymmetric(a[1..], b[1..]);
    }
  }
}
