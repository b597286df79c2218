/** The idempotency cache (crates/moonlight-bridge-server/src/idempotency.rs).

    Every `Arc<Entry>` ever made is a cell, named by its position in `cells`; the map holds
    the cell each key currently points at. One cell is one run of an operation. Time is a
    number that never goes back. Each section that holds the lock is one step. */
module Idempotency {
  import opened Common

  datatype Outcome<V, E> = Value(value: V) | Failed(error: E) | Indeterminate

  datatype Completion<V, E> = Completion(at: nat, outcome: Outcome<V, E>)

  datatype Cell<K, V, E> = Cell(key: K, result: Option<Completion<V, E>>)

  datatype Cache<K, V, E> = Cache(entries: map<K, nat>, completed: seq<K>, cells: seq<Cell<K, V, E>>)

  datatype Config = Config(capacity: nat, ttl: nat)

  datatype Admission = Joined(cell: nat) | Started(cell: nat) | Overloaded

  /** The run ended with a value or an application error. */
  predicate Determinate<K, V, E>(c: Cache<K, V, E>, id: nat) {
    id < |c.cells| && c.cells[id].result.Some? && !c.cells[id].result.value.outcome.Indeterminate?
  }

  predicate Expired<K, V, E>(config: Config, c: Cache<K, V, E>, id: nat, now: nat) {
    Determinate(c, id) && now >= c.cells[id].result.value.at + config.ttl
  }

  // ---------------------------------------------------------------------------
  // What always holds

  ghost predicate EntriesNameCells<K, V, E>(c: Cache<K, V, E>) {
    forall k :: k in c.entries ==> c.entries[k] < |c.cells| && c.cells[c.entries[k]].key == k
  }

  ghost predicate QueueIsFinished<K, V, E>(c: Cache<K, V, E>) {
    && (forall i, j :: 0 <= i < j < |c.completed| ==> c.completed[i] != c.completed[j])
    && (forall k :: k in c.completed ==> k in c.entries && Determinate(c, c.entries[k]))
    && (forall k :: k in c.entries && Determinate(c, c.entries[k]) ==> k in c.completed)
  }

  ghost predicate QueueInOrder<K, V, E>(c: Cache<K, V, E>)
    requires QueueIsFinished(c)
  {
    forall i, j :: 0 <= i < j < |c.completed| ==>
      c.cells[c.entries[c.completed[i]]].result.value.at <= c.cells[c.entries[c.completed[j]]].result.value.at
  }

  /** A run that is pending or indeterminate is still the entry of its key, and an entry
      is the latest run of its key. */
  ghost predicate OpenRunsPinned<K, V, E>(c: Cache<K, V, E>) {
    forall id :: 0 <= id < |c.cells| ==>
      && (!Determinate(c, id) ==> c.cells[id].key in c.entries && c.entries[c.cells[id].key] == id)
      && (c.cells[id].key in c.entries ==> id <= c.entries[c.cells[id].key])
  }

  ghost predicate EndedBy<K, V, E>(c: Cache<K, V, E>, now: nat) {
    forall id :: 0 <= id < |c.cells| && c.cells[id].result.Some? ==> c.cells[id].result.value.at <= now
  }

  ghost predicate Inv<K, V, E>(config: Config, c: Cache<K, V, E>, now: nat) {
    && EntriesNameCells(c)
    && QueueIsFinished(c)
    && QueueInOrder(c)
    && OpenRunsPinned(c)
    && EndedBy(c, now)
    && |c.entries| <= config.capacity
  }

  // ---------------------------------------------------------------------------
  // The two lock-held sections

  /** The position of the first `k` in `s`; the length of `s` if there is none. */
  function IndexOf<K(==)>(s: seq<K>, k: K): (i: nat)
    ensures i <= |s| && k !in s[..i]
    ensures i < |s| ==> s[i] == k
  {
    if s == [] || s[0] == k then 0 else 1 + IndexOf(s[1..], k)
  }

  /** The position of the first key of `s` that `m` holds; the length of `s` if there is none. */
  function FirstIn<K(==), T>(s: seq<K>, m: map<K, T>): (i: nat)
    ensures i <= |s| && forall j :: 0 <= j < i ==> s[j] !in m
    ensures i < |s| ==> s[i] in m
  {
    if s == [] || s[0] in m then 0 else 1 + FirstIn(s[1..], m)
  }

  function AtMost(n: nat, limit: nat): nat {
    if n <= limit then n else limit
  }

  /** The first n keys of the completion queue leave the cache. */
  function Drop<K(==), V, E>(c: Cache<K, V, E>, n: nat): Cache<K, V, E>
    requires n <= |c.completed|
  {
    c.(entries := c.entries - (set k | k in c.completed[..n]), completed := c.completed[n..])
  }

  function Start<K, V, E>(c: Cache<K, V, E>, key: K): (Cache<K, V, E>, Admission) {
    (c.(entries := c.entries[key := |c.cells|], cells := c.cells + [Cell(key, None)]), Started(|c.cells|))
  }

  function Admit<K(==), V, E>(config: Config, c: Cache<K, V, E>, key: K, now: nat): (Cache<K, V, E>, Admission) {
    if key in c.entries then
      if Expired(config, c, c.entries[key], now) then
        // Pop completed keys, oldest first, up to and including this one.
        Start(Drop(c, AtMost(IndexOf(c.completed, key) + 1, |c.completed|)), key)
      else
        (c, Joined(c.entries[key]))
    else if |c.entries| >= config.capacity then
      // Pop completed keys up to and including the first one still in the map.
      var n := FirstIn(c.completed, c.entries);
      if n == |c.completed| then (Drop(c, n), Overloaded) else Start(Drop(c, n + 1), key)
    else
      Start(c, key)
  }

  function Complete<K, V, E>(c: Cache<K, V, E>, id: nat, outcome: Outcome<V, E>, now: nat): Cache<K, V, E>
    requires id < |c.cells|
  {
    var key := c.cells[id].key;
    c.(cells := c.cells[id := Cell(key, Some(Completion(now, outcome)))],
       completed := if outcome.Indeterminate? then c.completed else c.completed + [key])
  }

  class IdempotencyCache<K(==), V, E> {
    const config: Config
    var entries: map<K, nat>
    var completed: seq<K>
    var cells: seq<Cell<K, V, E>>

    function State(): Cache<K, V, E>
      reads this
    {
      Cache(entries, completed, cells)
    }

    constructor (capacity: nat, ttl: nat)
      requires capacity > 0 && ttl > 0
      ensures config == Config(capacity, ttl) && State() == Cache(map[], [], [])
      ensures Inv(config, State(), 0)
    {
      config := Config(capacity, ttl);
      entries, completed, cells := map[], [], [];
    }

    method Insert(key: K) returns (admission: Admission)
      modifies this
      ensures (State(), admission) == Start(old(State()), key)
    {
      admission := Started(|cells|);
      entries := entries[key := |cells|];
      cells := cells + [Cell(key, None)];
    }

    method SweepThrough(key: K)
      modifies this
      ensures State() == Drop(old(State()), AtMost(IndexOf(old(completed), key) + 1, |old(completed)|))
    {
      ghost var n := 0;
      ghost var target := IndexOf(completed, key);
      while completed != []
        invariant n <= target && cells == old(cells)
        invariant completed == old(completed)[n..] && entries == Drop(old(State()), n).entries
      {
        var oldest := completed[0];
        assert oldest == old(completed)[n];
        completed := completed[1..];
        entries := entries - {oldest};
        DropOneMore(old(State()), n);
        if oldest == key {
          return;
        }
        n := n + 1;
      }
    }

    method EvictOldest() returns (evicted: bool)
      modifies this
      ensures var n := FirstIn(old(completed), old(entries));
              && evicted == (n < |old(completed)|)
              && State() == Drop(old(State()), if evicted then n + 1 else n)
    {
      evicted := false;
      ghost var n := 0;
      ghost var before := State();
      ghost var first := FirstIn(completed, entries);
      while completed != []
        invariant n <= first && completed == before.completed[n..]
        invariant entries == before.entries && cells == before.cells
      {
        var oldest := completed[0];
        completed := completed[1..];
        if oldest in entries {
          DropFirstHeld(before, n);
          entries := entries - {oldest};
          return true;
        }
        n := n + 1;
      }
      DropUnheld(before, n);
    }

    /** The admission half of `execute`, up to the release of the lock. */
    method Lookup(key: K, now: nat) returns (admission: Admission)
      modifies this
      ensures (State(), admission) == Admit(config, old(State()), key, now)
    {
      if key in entries {
        if !Expired(config, State(), entries[key], now) {
          return Joined(entries[key]);
        }
        SweepThrough(key);
      } else if |entries| >= config.capacity {
        var evicted := EvictOldest();
        if !evicted {
          return Overloaded;
        }
      }
      admission := Insert(key);
    }

    /** The completion half, run once by the worker of the cell. */
    method Finish(id: nat, outcome: Outcome<V, E>, now: nat)
      requires id < |cells| && cells[id].result.None?
      modifies this
      ensures State() == Complete(old(State()), id, outcome, now)
      ensures cells == old(cells)[id := Cell(old(cells)[id].key, Some(Completion(now, outcome)))]
      ensures completed == if outcome.Indeterminate? then old(completed) else old(completed) + [old(cells)[id].key]
    {
      var key := cells[id].key;
      cells := cells[id := Cell(key, Some(Completion(now, outcome)))];
      if !outcome.Indeterminate? {
        completed := completed + [key];
      }
    }
  }

  lemma DropUnheld<K, V, E>(c: Cache<K, V, E>, n: nat)
    requires n <= FirstIn(c.completed, c.entries)
    ensures Drop(c, n) == c.(completed := c.completed[n..])
  {
    assert Drop(c, n).entries == c.entries;
  }

  lemma DropFirstHeld<K, V, E>(c: Cache<K, V, E>, n: nat)
    requires n <= FirstIn(c.completed, c.entries) && n < |c.completed| && c.completed[n] in c.entries
    ensures Drop(c, n + 1) == c.(entries := c.entries - {c.completed[n]}, completed := c.completed[n..][1..])
  {
    DropUnheld(c, n);
    DropOneMore(c, n);
  }

  lemma DropOneMore<K, V, E>(c: Cache<K, V, E>, n: nat)
    requires n < |c.completed|
    ensures Drop(c, n + 1).entries == Drop(c, n).entries - {c.completed[n]}
    ensures Drop(c, n + 1).completed == Drop(c, n).completed[1..]
  {
  }

  // ---------------------------------------------------------------------------
  // The sections keep the invariant

  lemma DropKeepsQueue<K, V, E>(c: Cache<K, V, E>, n: nat)
    requires QueueIsFinished(c) && n <= |c.completed|
    ensures QueueIsFinished(Drop(c, n))
  {
  }

  lemma DropKeepsOrder<K, V, E>(c: Cache<K, V, E>, n: nat)
    requires QueueIsFinished(c) && QueueInOrder(c) && n <= |c.completed| && QueueIsFinished(Drop(c, n))
    ensures QueueInOrder(Drop(c, n))
  {
    var d := Drop(c, n);
    forall i, j | 0 <= i < j < |d.completed|
      ensures d.cells[d.entries[d.completed[i]]].result.value.at <= d.cells[d.entries[d.completed[j]]].result.value.at
    {
      assert d.completed[i] == c.completed[n + i] && d.completed[j] == c.completed[n + j];
    }
  }

  lemma DropKeepsPinned<K, V, E>(c: Cache<K, V, E>, n: nat)
    requires EntriesNameCells(c) && QueueIsFinished(c) && OpenRunsPinned(c) && n <= |c.completed|
    ensures OpenRunsPinned(Drop(c, n))
  {
  }

  lemma DropKeepsInv<K, V, E>(config: Config, c: Cache<K, V, E>, n: nat, now: nat)
    requires Inv(config, c, now) && n <= |c.completed|
    ensures Inv(config, Drop(c, n), now)
  {
    DropKeepsQueue(c, n);
    DropKeepsOrder(c, n);
    DropKeepsPinned(c, n);
    KeysSmaller(Drop(c, n).entries, c.entries);
  }

  lemma KeysSmaller<K, T>(a: map<K, T>, b: map<K, T>)
    requires a.Keys <= b.Keys
    ensures |a| <= |b|
  {
    SubsetSmaller(a.Keys, b.Keys);
    assert |a| == |a.Keys| && |b| == |b.Keys|;
  }

  lemma {:induction false} SubsetSmaller<T>(a: set<T>, b: set<T>)
    requires a <= b
    ensures |a| <= |b|
  {
    if a != {} {
      var x :| x in a;
      SubsetSmaller(a - {x}, b - {x});
    }
  }

  lemma StartKeepsQueue<K, V, E>(c: Cache<K, V, E>, key: K)
    requires EntriesNameCells(c) && QueueIsFinished(c) && QueueInOrder(c) && key !in c.entries
    ensures EntriesNameCells(Start(c, key).0) && QueueIsFinished(Start(c, key).0) && QueueInOrder(Start(c, key).0)
  {
    var d := Start(c, key).0;
    assert forall id :: 0 <= id < |c.cells| ==> d.cells[id] == c.cells[id] && Determinate(d, id) == Determinate(c, id);
    assert !Determinate(d, |c.cells|);
  }

  lemma StartKeepsPinned<K, V, E>(c: Cache<K, V, E>, key: K)
    requires OpenRunsPinned(c) && key !in c.entries
    ensures OpenRunsPinned(Start(c, key).0)
  {
  }

  lemma StartKeepsInv<K, V, E>(config: Config, c: Cache<K, V, E>, key: K, now: nat)
    requires Inv(config, c, now) && key !in c.entries && |c.entries| < config.capacity
    ensures Inv(config, Start(c, key).0, now)
  {
    StartKeepsQueue(c, key);
    StartKeepsPinned(c, key);
    OneKeyMore(c.entries, key, |c.cells|);
    StartKeepsTimes(c, key, now);
  }

  lemma StartKeepsTimes<K, V, E>(c: Cache<K, V, E>, key: K, now: nat)
    requires EndedBy(c, now)
    ensures EndedBy(Start(c, key).0, now)
  {
  }

  lemma OneKeyMore<K, T>(m: map<K, T>, key: K, value: T)
    requires key !in m
    ensures |m[key := value]| == |m| + 1
  {
    assert m[key := value].Keys == m.Keys + {key};
    assert |m[key := value]| == |m[key := value].Keys| && |m| == |m.Keys|;
  }

  lemma DropRemoves<K, V, E>(c: Cache<K, V, E>, n: nat)
    requires QueueIsFinished(c) && 0 < n <= |c.completed|
    ensures |Drop(c, n).entries| < |c.entries|
  {
    var first := c.completed[0];
    assert c.completed[..n][0] == first;
    var rest := c.entries - {first};
    KeysSmaller(Drop(c, n).entries, rest);
    assert rest.Keys == c.entries.Keys - {first};
    assert |rest| == |rest.Keys| && |c.entries| == |c.entries.Keys|;
  }

  lemma StartAfterDropKeepsInv<K, V, E>(config: Config, c: Cache<K, V, E>, n: nat, key: K, now: nat)
    requires Inv(config, c, now) && 0 < n <= |c.completed| && key !in Drop(c, n).entries
    ensures Inv(config, Start(Drop(c, n), key).0, now)
  {
    DropKeepsInv(config, c, n, now);
    DropRemoves(c, n);
    StartKeepsInv(config, Drop(c, n), key, now);
  }

  /** What admission does to a cache that satisfies the invariant. */
  lemma AdmitMeans<K, V, E>(config: Config, c: Cache<K, V, E>, key: K, now: nat)
    requires QueueIsFinished(c)
    ensures key in c.entries && Expired(config, c, c.entries[key], now) ==>
      var n := IndexOf(c.completed, key) + 1;
      n <= |c.completed| && c.completed[n - 1] == key && Admit(config, c, key, now) == Start(Drop(c, n), key)
    ensures key in c.entries && !Expired(config, c, c.entries[key], now) ==>
      Admit(config, c, key, now) == (c, Joined(c.entries[key]))
    ensures key !in c.entries && |c.entries| >= config.capacity ==>
      Admit(config, c, key, now) == if c.completed == [] then (c, Overloaded) else Start(Drop(c, 1), key)
    ensures key !in c.entries && |c.entries| < config.capacity ==> Admit(config, c, key, now) == Start(c, key)
  {
    if key in c.entries && Expired(config, c, c.entries[key], now) {
      assert key in c.completed;
    }
    if c.completed == [] {
      assert Drop(c, 0) == c;
    } else {
      assert c.completed[0] in c.completed;
    }
  }

  lemma AdmitKeepsInv<K, V, E>(config: Config, c: Cache<K, V, E>, key: K, now: nat)
    requires Inv(config, c, now)
    ensures Inv(config, Admit(config, c, key, now).0, now)
  {
    AdmitMeans(config, c, key, now);
    if key in c.entries {
      if Expired(config, c, c.entries[key], now) {
        var n := IndexOf(c.completed, key) + 1;
        assert c.completed[..n][n - 1] == key;
        StartAfterDropKeepsInv(config, c, n, key, now);
      }
    } else if |c.entries| < config.capacity {
      StartKeepsInv(config, c, key, now);
    } else if c.completed != [] {
      StartAfterDropKeepsInv(config, c, 1, key, now);
    }
  }

  lemma CompleteKeepsQueue<K, V, E>(c: Cache<K, V, E>, id: nat, outcome: Outcome<V, E>, now: nat)
    requires EntriesNameCells(c) && QueueIsFinished(c) && OpenRunsPinned(c)
    requires id < |c.cells| && c.cells[id].result.None?
    ensures QueueIsFinished(Complete(c, id, outcome, now))
    ensures c.cells[id].key !in c.completed
  {
    var d := Complete(c, id, outcome, now);
    var key := c.cells[id].key;
    assert !Determinate(c, id) && c.entries[key] == id && key !in c.completed;
    forall k | k in d.completed ensures k in d.entries && Determinate(d, d.entries[k]) {
      assert k in c.completed || k == key;
    }
    forall k | k in d.entries && Determinate(d, d.entries[k]) ensures k in d.completed {
      if k == key {
        assert d.completed[|c.completed|] == key;
      } else {
        assert Determinate(c, c.entries[k]) && k in c.completed;
        var i := IndexOf(c.completed, k);
        assert d.completed[i] == k;
      }
    }
  }

  lemma CompleteKeepsOrder<K, V, E>(c: Cache<K, V, E>, id: nat, outcome: Outcome<V, E>, now: nat)
    requires EntriesNameCells(c) && QueueIsFinished(c) && QueueInOrder(c) && EndedBy(c, now)
    requires id < |c.cells| && c.cells[id].result.None? && !Determinate(c, id)
    requires c.cells[id].key in c.entries && c.entries[c.cells[id].key] == id
    requires QueueIsFinished(Complete(c, id, outcome, now)) && c.cells[id].key !in c.completed
    ensures QueueInOrder(Complete(c, id, outcome, now))
  {
    var d := Complete(c, id, outcome, now);
    forall i, j | 0 <= i < j < |d.completed|
      ensures d.cells[d.entries[d.completed[i]]].result.value.at <= d.cells[d.entries[d.completed[j]]].result.value.at
    {
      assert d.completed[i] == c.completed[i] && c.completed[i] in c.completed;
      if j < |c.completed| {
        assert d.completed[j] == c.completed[j] && c.completed[j] in c.completed;
      }
    }
  }

  lemma CompleteKeepsPinned<K, V, E>(c: Cache<K, V, E>, id: nat, outcome: Outcome<V, E>, now: nat)
    requires OpenRunsPinned(c) && id < |c.cells| && c.cells[id].result.None?
    ensures OpenRunsPinned(Complete(c, id, outcome, now))
  {
  }

  lemma CompleteKeepsInv<K, V, E>(config: Config, c: Cache<K, V, E>, id: nat, outcome: Outcome<V, E>, now: nat)
    requires Inv(config, c, now) && id < |c.cells| && c.cells[id].result.None?
    ensures Inv(config, Complete(c, id, outcome, now), now)
  {
    CompleteKeepsQueue(c, id, outcome, now);
    CompleteKeepsOrder(c, id, outcome, now);
    CompleteKeepsPinned(c, id, outcome, now);
  }
}
