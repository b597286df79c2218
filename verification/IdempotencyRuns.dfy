/** Every interleaving of callers and workers over one idempotency cache
    (crates/moonlight-bridge-server/src/idempotency.rs, `execute`).

    A caller that is admitted then loops: register with the notifier, look at the result,
    park until notified. A worker sets its result under the lock and then notifies; the two
    are separate steps here. A caller may be dropped at any of its own steps. */
module IdempotencyRuns {
  import opened Common
  import opened Idempotency

  datatype Phase<V, E> =
    | Registering
    | Registered(woken: bool)
    | Parked(woken: bool)
    | Returned(outcome: Outcome<V, E>)
    | Dropped

  datatype Caller<V, E> = Caller(cell: nat, replayed: bool, phase: Phase<V, E>)

  /** `notified`: the cells whose worker has called `notify_waiters`.
      `starters`: for each cell, the caller that started it. */
  datatype Sys<K, V, E> = Sys(cache: Cache<K, V, E>, callers: seq<Caller<V, E>>,
                              notified: set<nat>, starters: seq<nat>, clock: nat)

  datatype Step<K, V, E> =
    | Call(key: K)
    | Settle(cell: nat, outcome: Outcome<V, E>)
    | Notify(cell: nat)
    | Register(caller: nat)
    | Inspect(caller: nat)
    | Wake(caller: nat)
    | Abandon(caller: nat)
    | Tick

  predicate Enabled<K, V, E>(s: Sys<K, V, E>, step: Step<K, V, E>) {
    match step
    case Call(_) => true
    case Settle(id, _) => id < |s.cache.cells| && s.cache.cells[id].result.None?
    case Notify(id) => id < |s.cache.cells| && s.cache.cells[id].result.Some? && id !in s.notified
    case Register(c) => c < |s.callers| && s.callers[c].phase.Registering?
    case Inspect(c) => c < |s.callers| && s.callers[c].phase.Registered? && s.callers[c].cell < |s.cache.cells|
    case Wake(c) => c < |s.callers| && s.callers[c].phase.Parked? && s.callers[c].phase.woken
    case Abandon(c) => c < |s.callers| && !s.callers[c].phase.Returned?
    case Tick => true
  }

  function WithPhase<K, V, E>(s: Sys<K, V, E>, caller: nat, phase: Phase<V, E>): Sys<K, V, E>
    requires caller < |s.callers|
  {
    s.(callers := s.callers[caller := s.callers[caller].(phase := phase)])
  }

  function Woken<V, E>(caller: Caller<V, E>, id: nat): Caller<V, E> {
    if caller.cell != id then caller
    else match caller.phase
      case Registered(_) => caller.(phase := Registered(true))
      case Parked(_) => caller.(phase := Parked(true))
      case _ => caller
  }

  function Apply<K(==), V, E>(config: Config, s: Sys<K, V, E>, step: Step<K, V, E>): Sys<K, V, E>
    requires Enabled(s, step)
  {
    match step
    case Call(key) =>
      var (cache, admission) := Admit(config, s.cache, key, s.clock);
      (match admission
       case Overloaded => s.(cache := cache)
       case Joined(id) => s.(cache := cache, callers := s.callers + [Caller(id, true, Registering)])
       case Started(id) => s.(cache := cache, callers := s.callers + [Caller(id, false, Registering)],
                              starters := s.starters + [|s.callers|]))
    case Settle(id, outcome) => s.(cache := Complete(s.cache, id, outcome, s.clock))
    case Notify(id) =>
      s.(notified := s.notified + {id},
         callers := seq(|s.callers|, i requires 0 <= i < |s.callers| => Woken(s.callers[i], id)))
    case Register(c) => WithPhase(s, c, Registered(false))
    case Inspect(c) =>
      var result := s.cache.cells[s.callers[c].cell].result;
      WithPhase(s, c, if result.Some? then Returned(result.value.outcome) else Parked(s.callers[c].phase.woken))
    case Wake(c) => WithPhase(s, c, Registering)
    case Abandon(c) => WithPhase(s, c, Dropped)
    case Tick => s.(clock := s.clock + 1)
  }

  // ---------------------------------------------------------------------------
  // What always holds

  ghost predicate CallerOk<K, V, E>(s: Sys<K, V, E>, caller: Caller<V, E>) {
    && caller.cell < |s.cache.cells|
    && (caller.phase.Returned? ==>
          && s.cache.cells[caller.cell].result.Some?
          && s.cache.cells[caller.cell].result.value.outcome == caller.phase.outcome)
    // A caller that parked without being woken registered before the result was set.
    && (caller.phase.Parked? && !caller.phase.woken ==> caller.cell !in s.notified)
  }

  ghost predicate StartersOk<K, V, E>(s: Sys<K, V, E>) {
    && |s.starters| == |s.cache.cells|
    && (forall id :: 0 <= id < |s.starters| ==>
          && s.starters[id] < |s.callers|
          && s.callers[s.starters[id]].cell == id && !s.callers[s.starters[id]].replayed)
    && (forall c :: 0 <= c < |s.callers| && !s.callers[c].replayed ==>
          s.callers[c].cell < |s.starters| && s.starters[s.callers[c].cell] == c)
  }

  ghost predicate NotifiedOk<K, V, E>(s: Sys<K, V, E>) {
    forall id :: id in s.notified ==> id < |s.cache.cells| && s.cache.cells[id].result.Some?
  }

  ghost predicate SysInv<K, V, E>(config: Config, s: Sys<K, V, E>) {
    && Inv(config, s.cache, s.clock)
    && (forall c :: 0 <= c < |s.callers| ==> CallerOk(s, s.callers[c]))
    && NotifiedOk(s)
    && StartersOk(s)
  }

  /** Cells are only added, keep their key, and keep a result once set. */
  ghost predicate Grows<K, V, E>(a: Cache<K, V, E>, b: Cache<K, V, E>) {
    && |a.cells| <= |b.cells|
    && forall id :: 0 <= id < |a.cells| ==>
         && b.cells[id].key == a.cells[id].key
         && (a.cells[id].result.Some? ==> b.cells[id].result == a.cells[id].result)
  }

  lemma StepGrows<K, V, E>(config: Config, s: Sys<K, V, E>, step: Step<K, V, E>)
    requires Enabled(s, step)
    ensures Grows(s.cache, Apply(config, s, step).cache)
  {
  }

  lemma CallKeepsCallers<K, V, E>(config: Config, s: Sys<K, V, E>, key: K)
    requires EntriesNameCells(s.cache) && forall c :: 0 <= c < |s.callers| ==> CallerOk(s, s.callers[c])
    ensures var t := Apply(config, s, Call(key)); forall c :: 0 <= c < |t.callers| ==> CallerOk(t, t.callers[c])
  {
    var t := Apply(config, s, Call(key));
    AdmitCells(config, s.cache, key, s.clock);
    StepGrows(config, s, Call(key));
    forall c | 0 <= c < |t.callers| ensures CallerOk(t, t.callers[c]) {
      if c < |s.callers| { assert t.callers[c] == s.callers[c] && CallerOk(s, s.callers[c]); }
    }
  }

  lemma CallKeepsStarters<K, V, E>(config: Config, s: Sys<K, V, E>, key: K)
    requires StartersOk(s)
    ensures StartersOk(Apply(config, s, Call(key)))
  {
    var t := Apply(config, s, Call(key));
    AdmitCells(config, s.cache, key, s.clock);
    assert forall c :: 0 <= c < |s.callers| ==> t.callers[c] == s.callers[c];
    assert forall id :: 0 <= id < |s.starters| ==> t.starters[id] == s.starters[id];
  }

  /** A call that starts a run adds its cell last; no other call adds one. */
  lemma AdmitCells<K, V, E>(config: Config, c: Cache<K, V, E>, key: K, now: nat)
    ensures var (d, admission) := Admit(config, c, key, now);
      |d.cells| == |c.cells| + (if admission.Started? then 1 else 0) &&
        (admission.Started? ==> admission.cell == |c.cells|)
  {
  }

  lemma CallerKeepsOk<K, V, E>(config: Config, s: Sys<K, V, E>, step: Step<K, V, E>, c: nat)
    requires Enabled(s, step) && !step.Call? && NotifiedOk(s)
    requires c < |s.callers| && CallerOk(s, s.callers[c])
    ensures var t := Apply(config, s, step);
      && |t.callers| == |s.callers| && CallerOk(t, t.callers[c])
      && t.callers[c].cell == s.callers[c].cell && t.callers[c].replayed == s.callers[c].replayed
  {
  }

  lemma CallKeepsInv<K, V, E>(config: Config, s: Sys<K, V, E>, key: K)
    requires SysInv(config, s)
    ensures SysInv(config, Apply(config, s, Call(key)))
  {
    AdmitKeepsInv(config, s.cache, key, s.clock);
    CallKeepsNotified(config, s, key);
    CallKeepsCallers(config, s, key);
    CallKeepsStarters(config, s, key);
  }

  lemma CallKeepsNotified<K, V, E>(config: Config, s: Sys<K, V, E>, key: K)
    requires NotifiedOk(s)
    ensures var t := Apply(config, s, Call(key));
      NotifiedOk(t) && t.cache == Admit(config, s.cache, key, s.clock).0 && t.clock == s.clock
  {
    StepGrows(config, s, Call(key));
  }

  lemma StepKeepsInv<K, V, E>(config: Config, s: Sys<K, V, E>, step: Step<K, V, E>)
    requires SysInv(config, s) && Enabled(s, step)
    ensures SysInv(config, Apply(config, s, step))
  {
    if step.Call? {
      CallKeepsInv(config, s, step.key);
    } else {
      if step.Settle? {
        CompleteKeepsInv(config, s.cache, step.cell, step.outcome, s.clock);
      }
      CallersStay(config, s, step);
    }
  }

  lemma CallersStay<K, V, E>(config: Config, s: Sys<K, V, E>, step: Step<K, V, E>)
    requires SysInv(config, s) && Enabled(s, step) && !step.Call?
    ensures var t := Apply(config, s, step);
      (forall c :: 0 <= c < |t.callers| ==> CallerOk(t, t.callers[c])) && StartersOk(t)
  {
    var t := Apply(config, s, step);
    forall c | 0 <= c < |s.callers|
      ensures |t.callers| == |s.callers| && CallerOk(t, t.callers[c])
      ensures t.callers[c].cell == s.callers[c].cell && t.callers[c].replayed == s.callers[c].replayed
    {
      CallerKeepsOk(config, s, step, c);
    }
    assert t.starters == s.starters && |t.cache.cells| == |s.cache.cells| && |t.callers| == |s.callers|;
  }

  // ---------------------------------------------------------------------------
  // Runs

  ghost predicate Initial<K, V, E>(s: Sys<K, V, E>) {
    s.cache == Cache(map[], [], []) && s.callers == [] && s.notified == {} && s.starters == []
  }

  ghost predicate Run<K, V, E>(config: Config, states: seq<Sys<K, V, E>>, steps: seq<Step<K, V, E>>) {
    && |states| == |steps| + 1
    && Initial(states[0])
    && forall i :: 0 <= i < |steps| ==>
         Enabled(states[i], steps[i]) && states[i + 1] == Apply(config, states[i], steps[i])
  }

  lemma {:induction false} RunInv<K, V, E>(config: Config, states: seq<Sys<K, V, E>>, steps: seq<Step<K, V, E>>, i: nat)
    requires Run(config, states, steps) && i < |states|
    ensures SysInv(config, states[i])
  {
    if i > 0 {
      RunInv(config, states, steps, i - 1);
      StepKeepsInv(config, states[i - 1], steps[i - 1]);
      assert states[i - 1 + 1] == Apply(config, states[i - 1], steps[i - 1]);
    }
  }

  lemma NextGrows<K, V, E>(config: Config, states: seq<Sys<K, V, E>>, steps: seq<Step<K, V, E>>, j: nat)
    requires Run(config, states, steps) && 0 < j < |states|
    ensures Grows(states[j - 1].cache, states[j].cache)
  {
    assert states[j - 1 + 1] == Apply(config, states[j - 1], steps[j - 1]);
    StepGrows(config, states[j - 1], steps[j - 1]);
  }

  lemma RunGrows<K, V, E>(config: Config, states: seq<Sys<K, V, E>>, steps: seq<Step<K, V, E>>, i: nat, j: nat)
    requires Run(config, states, steps) && i <= j < |states|
    ensures Grows(states[i].cache, states[j].cache)
  {
    forall k | 0 < k < |states| ensures Grows(states[k - 1].cache, states[k].cache) {
      NextGrows(config, states, steps, k);
    }
    GrowsAlong(states, i, j);
  }

  lemma {:induction false} GrowsAlong<K, V, E>(states: seq<Sys<K, V, E>>, i: nat, j: nat)
    requires i <= j < |states|
    requires forall k :: 0 < k < |states| ==> Grows(states[k - 1].cache, states[k].cache)
    ensures Grows(states[i].cache, states[j].cache)
    decreases j
  {
    if i < j {
      GrowsAlong(states, i, j - 1);
      GrowsTransitive(states[i].cache, states[j - 1].cache, states[j].cache);
    }
  }

  lemma GrowsTransitive<K, V, E>(a: Cache<K, V, E>, b: Cache<K, V, E>, c: Cache<K, V, E>)
    requires Grows(a, b) && Grows(b, c)
    ensures Grows(a, c)
  {
  }

  // ---------------------------------------------------------------------------
  // At most once

  /** Of all runs of a key, every one but the last ended determinately: no key ever has
      two open runs, and none runs again after a run that is pending or panicked. */
  lemma AtMostOneOpenRun<K, V, E>(config: Config, states: seq<Sys<K, V, E>>, steps: seq<Step<K, V, E>>, i: nat, a: nat,
                                  b: nat)
    requires Run(config, states, steps) && i < |states|
    requires a < b < |states[i].cache.cells| && states[i].cache.cells[a].key == states[i].cache.cells[b].key
    ensures Determinate(states[i].cache, a)
  {
    RunInv(config, states, steps, i);
    var c := states[i].cache;
    assert c.cells[a].key == c.cells[b].key;
  }

  /** When a call starts a run of its key, every earlier run of the key has already ended
      determinately, and the key's entry is absent or expired. */
  lemma StartsOnlyAfterEnd<K, V, E>(config: Config, states: seq<Sys<K, V, E>>, steps: seq<Step<K, V, E>>, i: nat,
                                    id: nat)
    requires Run(config, states, steps) && i < |steps| && steps[i].Call?
    requires Admit(config, states[i].cache, steps[i].key, states[i].clock).1.Started?
    requires id < |states[i].cache.cells| && states[i].cache.cells[id].key == steps[i].key
    ensures Determinate(states[i].cache, id)
    ensures steps[i].key in states[i].cache.entries ==>
      Expired(config, states[i].cache, states[i].cache.entries[steps[i].key], states[i].clock)
  {
    RunInv(config, states, steps, i);
    AdmitMeans(config, states[i].cache, steps[i].key, states[i].clock);
    var c := states[i].cache;
    assert c.cells[id].key == steps[i].key;
  }

  /** An entry leaves the map only in a call, and only when it has expired or when the
      cache is full and it is the completed entry that ended first. */
  lemma LeavesOnlyExpiredOrOldest<K, V, E>(config: Config, states: seq<Sys<K, V, E>>, steps: seq<Step<K, V, E>>, i: nat,
                                           key: K)
    requires Run(config, states, steps) && i < |steps|
    requires key in states[i].cache.entries
    requires key !in states[i + 1].cache.entries || states[i + 1].cache.entries[key] != states[i].cache.entries[key]
    ensures steps[i].Call?
    ensures var c := states[i].cache;
      || Expired(config, c, c.entries[key], states[i].clock)
      || (|c.entries| >= config.capacity && steps[i].key !in c.entries && c.completed != [] && key == c.completed[0])
  {
    RunInv(config, states, steps, i);
    if steps[i].Call? {
      LeavesInAdmit(config, states[i].cache, steps[i].key, states[i].clock, key);
    }
  }

  lemma LeavesInAdmit<K, V, E>(config: Config, c: Cache<K, V, E>, called: K, now: nat, key: K)
    requires Inv(config, c, now) && key in c.entries
    requires var d := Admit(config, c, called, now).0; key !in d.entries || d.entries[key] != c.entries[key]
    ensures Expired(config, c, c.entries[key], now) ||
      (|c.entries| >= config.capacity && called !in c.entries && c.completed != [] && key == c.completed[0])
  {
    AdmitMeans(config, c, called, now);
    if called in c.entries {
      SweptKeysExpired(config, c, called, now, IndexOf(c.completed, called) + 1, key);
    } else if |c.entries| >= config.capacity && c.completed != [] {
      assert c.completed[..1] == [c.completed[0]];
    }
  }

  lemma SweptKeysExpired<K, V, E>(config: Config, c: Cache<K, V, E>, key: K, now: nat, n: nat, other: K)
    requires Inv(config, c, now) && key in c.entries && Expired(config, c, c.entries[key], now)
    requires n == IndexOf(c.completed, key) + 1 <= |c.completed|
    requires other in c.completed[..n]
    ensures Expired(config, c, c.entries[other], now)
  {
    var i :| 0 <= i < n && c.completed[i] == other;
    assert c.completed[n - 1] == key;
    assert other in c.completed;
  }

  /** A call is refused exactly when its key is absent and the cache is full of runs that
      are pending or indeterminate. */
  lemma OverloadedIff<K, V, E>(config: Config, states: seq<Sys<K, V, E>>, steps: seq<Step<K, V, E>>, i: nat, key: K)
    requires Run(config, states, steps) && i < |states|
    ensures var c := states[i].cache;
      Admit(config, c, key, states[i].clock).1.Overloaded? <==>
        && key !in c.entries && |c.entries| == config.capacity
        && forall k :: k in c.entries ==> !Determinate(c, c.entries[k])
  {
    RunInv(config, states, steps, i);
    var c := states[i].cache;
    AdmitMeans(config, c, key, states[i].clock);
    if c.completed != [] {
      assert c.completed[0] in c.completed;
    }
  }

  /** After a panic the key keeps that outcome for ever and never runs again. */
  lemma PanickedNeverReruns<K, V, E>(config: Config, states: seq<Sys<K, V, E>>, steps: seq<Step<K, V, E>>, i: nat,
                                     j: nat, id: nat, later: nat)
    requires Run(config, states, steps) && i <= j < |states|
    requires id < |states[i].cache.cells| && states[i].cache.cells[id].result.Some?
    requires states[i].cache.cells[id].result.value.outcome.Indeterminate?
    requires later < |states[j].cache.cells|
    requires id < |states[j].cache.cells| && states[j].cache.cells[later].key == states[i].cache.cells[id].key
    ensures later <= id
    ensures states[j].cache.cells[id] == states[i].cache.cells[id]
    ensures Admit(config, states[j].cache, states[i].cache.cells[id].key, states[j].clock).1 == Joined(id)
  {
    RunInv(config, states, steps, j);
    RunGrows(config, states, steps, i, j);
    var c := states[j].cache;
    assert !Determinate(c, id);
    AdmitMeans(config, c, c.cells[id].key, states[j].clock);
  }

  // ---------------------------------------------------------------------------
  // Callers

  /** Exactly one caller of a run sees `replayed = false`. */
  lemma OneStarterPerRun<K, V, E>(config: Config, states: seq<Sys<K, V, E>>, steps: seq<Step<K, V, E>>, i: nat, id: nat)
    requires Run(config, states, steps) && i < |states| && id < |states[i].cache.cells|
    ensures exists c ::
      0 <= c < |states[i].callers| && states[i].callers[c].cell == id && !states[i].callers[c].replayed
    ensures forall c, d :: 0 <= c < |states[i].callers| && 0 <= d < |states[i].callers| ==>
      states[i].callers[c].cell == states[i].callers[d].cell == id ==>
      !states[i].callers[c].replayed && !states[i].callers[d].replayed ==> c == d
  {
    RunInv(config, states, steps, i);
    var s := states[i];
    assert s.callers[s.starters[id]].cell == id;
  }

  /** All callers of a run, at any two moments of the history, return the same outcome. */
  lemma SameOutcome<K, V, E>(config: Config, states: seq<Sys<K, V, E>>, steps: seq<Step<K, V, E>>, i: nat, j: nat,
                             c: nat, d: nat)
    requires Run(config, states, steps) && i <= j < |states|
    requires c < |states[i].callers| && d < |states[j].callers|
    requires states[i].callers[c].phase.Returned? && states[j].callers[d].phase.Returned?
    requires states[i].callers[c].cell == states[j].callers[d].cell
    ensures states[i].callers[c].phase.outcome == states[j].callers[d].phase.outcome
  {
    RunInv(config, states, steps, i);
    RunInv(config, states, steps, j);
    RunGrows(config, states, steps, i, j);
    assert CallerOk(states[i], states[i].callers[c]) && CallerOk(states[j], states[j].callers[d]);
  }

  /** No wakeup is lost: once a worker has notified, every parked caller of its run has
      been woken, and its own three next steps return the run's outcome. */
  lemma NoCallerStaysParked<K, V, E>(config: Config, states: seq<Sys<K, V, E>>, steps: seq<Step<K, V, E>>, i: nat,
                                     c: nat)
    requires Run(config, states, steps) && i < |states|
    requires c < |states[i].callers| && states[i].callers[c].phase.Parked?
    requires states[i].callers[c].cell in states[i].notified
    ensures var s := states[i];
      && s.callers[c].cell < |s.cache.cells| && s.cache.cells[s.callers[c].cell].result.Some?
      && Enabled(s, Wake(c))
      && var woken := Apply(config, s, Wake(c));
      && Enabled(woken, Register(c))
      && var registered := Apply(config, woken, Register(c));
      && Enabled(registered, Inspect(c))
      && Apply(config, registered, Inspect(c)).callers[c].phase ==
         Returned(s.cache.cells[s.callers[c].cell].result.value.outcome)
  {
    RunInv(config, states, steps, i);
    assert CallerOk(states[i], states[i].callers[c]);
  }
}
