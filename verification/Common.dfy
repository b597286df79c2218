/** Datatypes and sequence sums shared by the modules. */
module Common {
  datatype Option<+T> = None | Some(value: T)

  datatype Result<+T, +E> = Ok(value: T) | Err(error: E)

  function Sum<T>(s: seq<T>, weight: T -> int): int {
    if s == [] then 0 else weight(s[0]) + Sum(s[1..], weight)
  }

  lemma {:induction false} SumConcat<T>(a: seq<T>, b: seq<T>, weight: T -> int)
    ensures Sum(a + b, weight) == Sum(a, weight) + Sum(b, weight)
  {
    if a == [] {
      assert a + b == b;
    } else {
      assert (a + b)[1..] == a[1..] + b;
      SumConcat(a[1..], b, weight);
    }
  }

  lemma SumAppend<T>(s: seq<T>, x: T, weight: T -> int)
    ensures Sum(s + [x], weight) == Sum(s, weight) + weight(x)
  {
    SumConcat(s, [x], weight);
    assert Sum([x], weight) == weight(x) + Sum<T>([], weight);
  }

  lemma SumSplit<T>(s: seq<T>, i: nat, weight: T -> int)
    requires i < |s|
    ensures Sum(s, weight) == Sum(s[..i], weight) + weight(s[i]) + Sum(s[i + 1..], weight)
  {
    assert s == s[..i] + [s[i]] + s[i + 1..];
    SumConcat(s[..i] + [s[i]], s[i + 1..], weight);
    SumAppend(s[..i], s[i], weight);
  }

  lemma SumUpdate<T>(s: seq<T>, i: nat, x: T, weight: T -> int)
    requires i < |s|
    ensures Sum(s[i := x], weight) == Sum(s, weight) - weight(s[i]) + weight(x)
  {
    SumSplit(s, i, weight);
    SumSplit(s[i := x], i, weight);
    assert s[i := x][..i] == s[..i] && s[i := x][i + 1..] == s[i + 1..];
  }

  lemma {:induction false} SumBounds<T>(s: seq<T>, weight: T -> int)
    requires forall x :: x in s ==> weight(x) >= 0
    ensures Sum(s, weight) >= 0
    ensures forall x :: x in s ==> weight(x) <= Sum(s, weight)
  {
    if s != [] {
      SumBounds(s[1..], weight);
      assert s == [s[0]] + s[1..];
    }
  }

  /** A number that every step of a run raises by its weight. */
  lemma {:induction false} Accumulates<S, T>(states: seq<S>, steps: seq<T>, value: S -> int, weight: T -> int, i: nat)
    requires |states| == |steps| + 1 && i < |states|
    requires forall k :: 0 <= k < |steps| ==> value(states[k + 1]) == value(states[k]) + weight(steps[k])
    ensures value(states[i]) == value(states[0]) + Sum(steps[..i], weight)
  {
    if i > 0 {
      Accumulates(states, steps, value, weight, i - 1);
      assert value(states[i - 1 + 1]) == value(states[i - 1]) + weight(steps[i - 1]);
      assert steps[..i] == steps[..i - 1] + [steps[i - 1]];
      SumAppend(steps[..i - 1], steps[i - 1], weight);
    }
  }

  function FlatMap<S, T>(s: seq<S>, f: S -> seq<T>): seq<T> {
    if s == [] then [] else f(s[0]) + FlatMap(s[1..], f)
  }

  lemma {:induction false} FlatMapConcat<S, T>(a: seq<S>, b: seq<S>, f: S -> seq<T>)
    ensures FlatMap(a + b, f) == FlatMap(a, f) + FlatMap(b, f)
  {
    if a == [] {
      assert a + b == b;
    } else {
      assert (a + b)[1..] == a[1..] + b;
      FlatMapConcat(a[1..], b, f);
    }
  }

  lemma FlatMapAppend<S, T>(s: seq<S>, x: S, f: S -> seq<T>)
    ensures FlatMap(s + [x], f) == FlatMap(s, f) + f(x)
  {
    FlatMapConcat(s, [x], f);
    assert FlatMap([x], f) == f(x) + FlatMap<S, T>([], f);
  }

  lemma FlatMapUpdate<S, T>(s: seq<S>, i: nat, x: S, f: S -> seq<T>)
    requires i < |s| && f(x) == f(s[i])
    ensures FlatMap(s[i := x], f) == FlatMap(s, f)
  {
    assert s == s[..i] + [s[i]] + s[i + 1..] && s[i := x] == s[..i] + [x] + s[i + 1..];
    FlatMapConcat(s[..i] + [s[i]], s[i + 1..], f);
    FlatMapConcat(s[..i] + [x], s[i + 1..], f);
    FlatMapAppend(s[..i], s[i], f);
    FlatMapAppend(s[..i], x, f);
  }

  lemma SliceOfSlice<T>(s: seq<T>, from: nat, to: nat, i: nat, j: nat)
    requires from <= to <= |s| && i <= j <= to - from
    ensures s[from..to][i..j] == s[from + i..from + j]
  {
    forall k | 0 <= k < j - i ensures s[from..to][i..j][k] == s[from + i..from + j][k] {
      assert s[from..to][i..j][k] == s[from..to][i + k] == s[from + i + k];
    }
  }

  lemma SliceJoin<T>(s: seq<T>, a: nat, b: nat, c: nat)
    requires a <= b <= c <= |s|
    ensures s[a..b] + s[b..c] == s[a..c]
  {
  }

  lemma Associates<T>(a: seq<T>, b: seq<T>, c: seq<T>)
    ensures a + b + c == a + (b + c)
  {
  }
}
