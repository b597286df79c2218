/** The idempotency cache and its callers explained by the steps of a run: what a run ended
    with, what a caller returns, and how long an outcome is replayed. */
module IdempotencyHistory {
  import opened Common
  import opened Idempotency
  import opened IdempotencyRuns

  // ---------------------------------------------------------------------------
  // Outcomes

  /** The j-th step settled the cell with this completion. */
  predicate SettledAt<K, V(==), E(==)>(states: seq<Sys<K, V, E>>, steps: seq<Step<K, V, E>>, j: int, id: nat,
                                       completion: Completion<V, E>)
  {
    0 <= j < |steps| && j < |states| && steps[j] == Settle(id, completion.outcome) && states[j].clock == completion.at
  }

  function ResultIn<K, V, E>(cells: seq<Cell<K, V, E>>, id: nat): Option<Completion<V, E>> {
    if id < |cells| then cells[id].result else None
  }

  /** What a step makes of the result of one cell. */
  ghost predicate ResultNext<K, V, E>(s: Sys<K, V, E>, step: Step<K, V, E>, t: Sys<K, V, E>, id: nat) {
    && (step.Settle? && step.cell == id ==> ResultIn(s.cache.cells, id).None?)
    && ResultIn(t.cache.cells, id) ==
         if step.Settle? && step.cell == id then Some(Completion(s.clock, step.outcome))
         else ResultIn(s.cache.cells, id)
  }

  lemma AdmitAppends<K, V, E>(config: Config, c: Cache<K, V, E>, key: K, now: nat)
    ensures var cells := Admit(config, c, key, now).0.cells; cells == c.cells || cells == c.cells + [Cell(key, None)]
  {
  }

  lemma StepSettles<K, V, E>(config: Config, s: Sys<K, V, E>, step: Step<K, V, E>, id: nat)
    requires Enabled(s, step)
    ensures ResultNext(s, step, Apply(config, s, step), id)
  {
    if step.Call? {
      AdmitAppends(config, s.cache, step.key, s.clock);
    }
  }

  lemma NextSettles<K, V, E>(config: Config, states: seq<Sys<K, V, E>>, steps: seq<Step<K, V, E>>, i: nat, id: nat)
    requires Run(config, states, steps) && 0 < i < |states|
    ensures ResultNext(states[i - 1], steps[i - 1], states[i], id)
  {
    assert states[i - 1 + 1] == Apply(config, states[i - 1], steps[i - 1]);
    StepSettles(config, states[i - 1], steps[i - 1], id);
  }

  lemma {:induction false} ResultFollows<K, V, E>(states: seq<Sys<K, V, E>>, steps: seq<Step<K, V, E>>, i: nat, id: nat,
                                                  completion: Completion<V, E>)
    requires |states| == |steps| + 1 && i < |states| && states[0].cache.cells == []
    requires forall k :: 0 < k < |states| ==> ResultNext(states[k - 1], steps[k - 1], states[k], id)
    ensures ResultIn(states[i].cache.cells, id) == Some(completion) <==>
      exists j :: 0 <= j < i && SettledAt(states, steps, j, id, completion)
  {
    if i > 0 {
      ResultFollows(states, steps, i - 1, id, completion);
      assert ResultNext(states[i - 1], steps[i - 1], states[i], id);
      if ResultIn(states[i].cache.cells, id) == Some(completion) {
        if steps[i - 1].Settle? && steps[i - 1].cell == id {
          assert SettledAt(states, steps, i - 1, id, completion);
        }
      } else if j :| 0 <= j < i && SettledAt(states, steps, j, id, completion) {
        assert j < i - 1;
      }
    }
  }

  /** A run ended with an outcome at a time if and only if its worker settled it with that
      outcome at that time. */
  lemma ResultIsSettled<K, V, E>(config: Config, states: seq<Sys<K, V, E>>, steps: seq<Step<K, V, E>>, i: nat, id: nat,
                                 completion: Completion<V, E>)
    requires Run(config, states, steps) && i < |states| && id < |states[i].cache.cells|
    ensures states[i].cache.cells[id].result == Some(completion) <==>
      exists j :: 0 <= j < i && SettledAt(states, steps, j, id, completion)
  {
    forall k | 0 < k < |states| ensures ResultNext(states[k - 1], steps[k - 1], states[k], id) {
      NextSettles(config, states, steps, k, id);
    }
    ResultFollows(states, steps, i, id, completion);
  }

  /** What a caller returns is what the worker of its run settled it with. */
  lemma ReturnsSettledOutcome<K, V, E>(config: Config, states: seq<Sys<K, V, E>>, steps: seq<Step<K, V, E>>,
                                       i: nat, c: nat) returns (j: nat)
    requires Run(config, states, steps) && i < |states| && c < |states[i].callers|
    requires states[i].callers[c].phase.Returned?
    ensures j < i && steps[j] == Settle(states[i].callers[c].cell, states[i].callers[c].phase.outcome)
  {
    RunInv(config, states, steps, i);
    var s, caller := states[i], states[i].callers[c];
    assert CallerOk(s, caller);
    var completion := s.cache.cells[caller.cell].result.value;
    ResultIsSettled(config, states, steps, i, caller.cell, completion);
    j :| 0 <= j < i && SettledAt(states, steps, j, caller.cell, completion);
  }

  // ---------------------------------------------------------------------------
  // Callers, notifications and the clock

  /** What a step makes of the caller's run: it stays, or it is the one a call was given. */
  ghost predicate CallerNext<K, V, E>(s: Sys<K, V, E>, step: Step<K, V, E>, t: Sys<K, V, E>, c: nat) {
    && |s.callers| <= |t.callers| <= |s.callers| + 1
    && (c < |s.callers| ==> t.callers[c].cell == s.callers[c].cell)
    && (|s.callers| <= c < |t.callers| ==>
         && step.Call? && t.callers[c].cell < |t.cache.cells|
         && t.cache.cells[t.callers[c].cell].key == step.key)
    && Grows(s.cache, t.cache)
  }

  lemma AdmitNames<K, V, E>(config: Config, c: Cache<K, V, E>, key: K, now: nat)
    requires EntriesNameCells(c)
    ensures var (d, admission) := Admit(config, c, key, now);
      !admission.Overloaded? ==> admission.cell < |d.cells| && d.cells[admission.cell].key == key
  {
    AdmitCells(config, c, key, now);
    AdmitAppends(config, c, key, now);
  }

  lemma NextCaller<K, V, E>(config: Config, states: seq<Sys<K, V, E>>, steps: seq<Step<K, V, E>>, i: nat, c: nat)
    requires Run(config, states, steps) && 0 < i < |states|
    ensures CallerNext(states[i - 1], steps[i - 1], states[i], c)
  {
    EntriesNamed(config, states, steps, i - 1);
    StepNextCaller(config, states[i - 1], steps[i - 1], c);
    assert states[i - 1 + 1] == Apply(config, states[i - 1], steps[i - 1]);
  }

  lemma EntriesNamed<K, V, E>(config: Config, states: seq<Sys<K, V, E>>, steps: seq<Step<K, V, E>>, i: nat)
    requires Run(config, states, steps) && i < |states|
    ensures EntriesNameCells(states[i].cache)
  {
    RunInv(config, states, steps, i);
  }

  lemma StepNextCaller<K, V, E>(config: Config, s: Sys<K, V, E>, step: Step<K, V, E>, c: nat)
    requires EntriesNameCells(s.cache) && Enabled(s, step)
    ensures CallerNext(s, step, Apply(config, s, step), c)
  {
    StepGrows(config, s, step);
    if step.Call? {
      AdmitNames(config, s.cache, step.key, s.clock);
    }
  }

  lemma {:induction false} CallerFollows<K, V, E>(states: seq<Sys<K, V, E>>, steps: seq<Step<K, V, E>>, i: nat, c: nat)
    returns (j: nat)
    requires |states| == |steps| + 1 && i < |states| && states[0].callers == [] && c < |states[i].callers|
    requires forall k :: 0 < k < |states| ==> CallerNext(states[k - 1], steps[k - 1], states[k], c)
    ensures j < i && steps[j].Call? && |states[j].callers| == c
    ensures states[i].callers[c].cell < |states[i].cache.cells|
    ensures states[i].cache.cells[states[i].callers[c].cell].key == steps[j].key
  {
    assert CallerNext(states[i - 1], steps[i - 1], states[i], c);
    if c < |states[i - 1].callers| {
      j := CallerFollows(states, steps, i - 1, c);
    } else {
      j := i - 1;
    }
  }

  /** The c-th caller comes from a call, and its run is a run of the key it called with. */
  lemma CallerServesItsKey<K, V, E>(config: Config, states: seq<Sys<K, V, E>>, steps: seq<Step<K, V, E>>, i: nat,
                                    c: nat)
    returns (j: nat)
    requires Run(config, states, steps) && i < |states| && c < |states[i].callers|
    ensures j < i && steps[j].Call? && |states[j].callers| == c
    ensures states[i].callers[c].cell < |states[i].cache.cells|
    ensures states[i].cache.cells[states[i].callers[c].cell].key == steps[j].key
  {
    forall k | 0 < k < |states| ensures CallerNext(states[k - 1], steps[k - 1], states[k], c) {
      NextCaller(config, states, steps, k, c);
    }
    j := CallerFollows(states, steps, i, c);
  }

  /** Every call that is not refused gets a caller, which starts its run or replays it. */
  lemma CallGetsCaller<K, V, E>(config: Config, states: seq<Sys<K, V, E>>, steps: seq<Step<K, V, E>>, i: nat)
    requires Run(config, states, steps) && i < |steps| && steps[i].Call?
    ensures var admission := Admit(config, states[i].cache, steps[i].key, states[i].clock).1;
      states[i + 1].callers ==
        match admission
        case Overloaded => states[i].callers
        case Joined(id) => states[i].callers + [Caller(id, true, Registering)]
        case Started(id) => states[i].callers + [Caller(id, false, Registering)]
  {
  }

  /** What a step makes of the phase of one caller. */
  ghost predicate PhaseNext<K, V, E>(s: Sys<K, V, E>, step: Step<K, V, E>, t: Sys<K, V, E>, c: nat) {
    && |s.callers| <= |t.callers|
    && (|s.callers| <= c < |t.callers| ==> t.callers[c].phase.Registering?)
    && (|s.callers| <= c ==> step != Register(c) && step != Abandon(c))
    && (c < |s.callers| ==>
         var w, x := s.callers[c].phase, t.callers[c].phase;
         && t.callers[c].cell == s.callers[c].cell
         && (step == Register(c) ==> x == Registered(false))
         && (step == Inspect(c) ==> w.Registered? && (x.Returned? || x == Parked(w.woken)))
         && (step == Abandon(c) ==> x == Dropped)
         && (step != Abandon(c) ==> (x.Dropped? <==> w.Dropped?))
         && (step == Wake(c) ==> x == Registering)
         && (step == Notify(s.callers[c].cell) ==> (x.Registered? <==> w.Registered?) && (x.Parked? <==> w.Parked?))
         && (step == Notify(s.callers[c].cell) && x.Registered? ==> x.woken)
         && (step == Notify(s.callers[c].cell) && x.Parked? ==> x.woken)
         && (!StepOf(step, c) && step != Notify(s.callers[c].cell) ==> x == w))
  }

  predicate StepOf<K(==), V(==), E(==)>(step: Step<K, V, E>, c: nat) {
    step == Register(c) || step == Inspect(c) || step == Abandon(c) || step == Wake(c)
  }

  lemma StepOnPhase<K, V, E>(config: Config, s: Sys<K, V, E>, step: Step<K, V, E>, c: nat)
    requires Enabled(s, step)
    ensures PhaseNext(s, step, Apply(config, s, step), c)
  {
    if step.Call? {
      CallOnPhase(config, s, step, c);
    }
  }

  lemma CallOnPhase<K, V, E>(config: Config, s: Sys<K, V, E>, step: Step<K, V, E>, c: nat)
    requires Enabled(s, step) && step.Call?
    ensures PhaseNext(s, step, Apply(config, s, step), c)
  {
  }

  ghost predicate PhaseHistory<K, V, E>(states: seq<Sys<K, V, E>>, steps: seq<Step<K, V, E>>, c: nat) {
    && |states| == |steps| + 1 && states[0].callers == []
    && forall i :: 0 <= i < |steps| ==> PhaseNext(states[i], steps[i], states[i + 1], c)
  }

  lemma NextOnPhase<K, V, E>(config: Config, states: seq<Sys<K, V, E>>, steps: seq<Step<K, V, E>>, i: nat, c: nat)
    requires Run(config, states, steps) && i < |steps|
    ensures PhaseNext(states[i], steps[i], states[i + 1], c)
  {
    assert states[i + 1] == Apply(config, states[i], steps[i]);
    StepOnPhase(config, states[i], steps[i], c);
  }

  lemma HasPhaseHistory<K, V, E>(config: Config, states: seq<Sys<K, V, E>>, steps: seq<Step<K, V, E>>, c: nat)
    requires Run(config, states, steps)
    ensures PhaseHistory(states, steps, c)
  {
    forall i | 0 <= i < |steps| ensures PhaseNext(states[i], steps[i], states[i + 1], c) {
      NextOnPhase(config, states, steps, i, c);
    }
  }

  predicate WaitsWoken<V, E>(phase: Phase<V, E>) {
    (phase.Registered? || phase.Parked?) && phase.woken
  }

  /** The j-th step notified the cell and the caller has not registered since. */
  ghost predicate NotifiedSince<K, V, E>(steps: seq<Step<K, V, E>>, j: int, i: nat, c: nat, cell: nat)
    requires i <= |steps|
  {
    0 <= j < i && steps[j] == Notify(cell) && forall m :: j < m < i ==> steps[m] != Register(c)
  }

  lemma {:induction false} WokenFollows<K, V, E>(states: seq<Sys<K, V, E>>, steps: seq<Step<K, V, E>>, i: nat, c: nat)
    requires PhaseHistory(states, steps, c) && i < |states| && c < |states[i].callers|
    requires states[i].callers[c].phase.Registered? || states[i].callers[c].phase.Parked?
    ensures WaitsWoken(states[i].callers[c].phase) <==>
      exists j :: NotifiedSince(steps, j, i, c, states[i].callers[c].cell)
  {
    var cell := states[i].callers[c].cell;
    assert PhaseNext(states[i - 1], steps[i - 1], states[i - 1 + 1], c);
    if steps[i - 1] == Notify(cell) {
      assert NotifiedSince(steps, i - 1, i, c, cell);
    } else if steps[i - 1] != Register(c) {
      WokenFollows(states, steps, i - 1, c);
      if WaitsWoken(states[i].callers[c].phase) {
        var j :| NotifiedSince(steps, j, i - 1, c, cell);
        assert NotifiedSince(steps, j, i, c, cell);
      }
      if j :| NotifiedSince(steps, j, i, c, cell) {
        assert NotifiedSince(steps, j, i - 1, c, cell);
      }
    }
  }

  /** A caller that waits is woken if and only if its run was notified since it registered: no
      wake-up is lost and none is made up. */
  lemma WokenIff<K, V, E>(config: Config, states: seq<Sys<K, V, E>>, steps: seq<Step<K, V, E>>, i: nat, c: nat)
    requires Run(config, states, steps) && i < |states| && c < |states[i].callers|
    requires states[i].callers[c].phase.Registered? || states[i].callers[c].phase.Parked?
    ensures WaitsWoken(states[i].callers[c].phase) <==>
      exists j :: NotifiedSince(steps, j, i, c, states[i].callers[c].cell)
  {
    HasPhaseHistory(config, states, steps, c);
    WokenFollows(states, steps, i, c);
  }

  lemma {:induction false} DroppedFollows<K, V, E>(states: seq<Sys<K, V, E>>, steps: seq<Step<K, V, E>>, i: nat, c: nat)
    requires PhaseHistory(states, steps, c) && i < |states|
    ensures c < |states[i].callers| ==>
      (states[i].callers[c].phase.Dropped? <==> exists j :: 0 <= j < i && steps[j] == Abandon(c))
    ensures |states[i].callers| <= c ==> forall j :: 0 <= j < i ==> steps[j] != Abandon(c)
  {
    if i > 0 {
      DroppedFollows(states, steps, i - 1, c);
      assert PhaseNext(states[i - 1], steps[i - 1], states[i - 1 + 1], c);
    }
  }

  /** A caller is dropped if and only if it was abandoned. */
  lemma DroppedIff<K, V, E>(config: Config, states: seq<Sys<K, V, E>>, steps: seq<Step<K, V, E>>, i: nat, c: nat)
    requires Run(config, states, steps) && i < |states| && c < |states[i].callers|
    ensures states[i].callers[c].phase.Dropped? <==> exists j :: 0 <= j < i && steps[j] == Abandon(c)
  {
    HasPhaseHistory(config, states, steps, c);
    DroppedFollows(states, steps, i, c);
  }

  /** A cell is notified exactly by its worker. */
  lemma {:induction false} NotifiedIff<K, V, E>(config: Config, states: seq<Sys<K, V, E>>, steps: seq<Step<K, V, E>>,
                                                i: nat, id: nat)
    requires Run(config, states, steps) && i < |states|
    ensures id in states[i].notified <==> exists j :: 0 <= j < i && steps[j] == Notify(id)
  {
    if i > 0 {
      assert states[i - 1 + 1] == Apply(config, states[i - 1], steps[i - 1]);
      NotifiedIff(config, states, steps, i - 1, id);
    }
  }

  function Ticks<K, V, E>(step: Step<K, V, E>): int {
    if step.Tick? then 1 else 0
  }

  lemma ClockCountsTicks<K, V, E>(config: Config, states: seq<Sys<K, V, E>>, steps: seq<Step<K, V, E>>, i: nat)
    requires Run(config, states, steps) && i < |states|
    ensures states[i].clock == states[0].clock + Sum(steps[..i], Ticks)
  {
    var clock := (s: Sys<K, V, E>) => s.clock as int;
    forall k | 0 <= k < |steps| ensures clock(states[k + 1]) == clock(states[k]) + Ticks(steps[k]) {
      assert states[k + 1] == Apply(config, states[k], steps[k]);
    }
    Accumulates(states, steps, clock, Ticks, i);
  }

  // ---------------------------------------------------------------------------
  // Replay

  /** As long as it is the entry of its key, a run that was settled determinately is joined by
      a call before its time is up and replaced by a new run from then on. */
  lemma ReplayedUntilTtl<K, V, E>(config: Config, states: seq<Sys<K, V, E>>, steps: seq<Step<K, V, E>>, j: nat, i: nat,
                                  id: nat, outcome: Outcome<V, E>)
    requires Run(config, states, steps) && j < i < |steps| && steps[i].Call?
    requires steps[j] == Settle(id, outcome) && !outcome.Indeterminate?
    requires steps[i].key in states[i].cache.entries && states[i].cache.entries[steps[i].key] == id
    ensures var admission := Admit(config, states[i].cache, steps[i].key, states[i].clock).1;
      if states[i].clock < states[j].clock + config.ttl then admission == Joined(id)
      else admission == Started(|states[i].cache.cells|)
  {
    RunInv(config, states, steps, i);
    var c, now := states[i].cache, states[i].clock;
    assert SettledAt(states, steps, j, id, Completion(states[j].clock, outcome));
    assert id < |c.cells|;
    ResultIsSettled(config, states, steps, i, id, Completion(states[j].clock, outcome));
    AdmitMeans(config, c, steps[i].key, now);
  }

  /** A run that is pending or panicked is joined at any time. */
  lemma OpenRunIsJoined<K, V, E>(config: Config, states: seq<Sys<K, V, E>>, steps: seq<Step<K, V, E>>, i: nat, id: nat)
    requires Run(config, states, steps) && i < |steps| && steps[i].Call? && id < |states[i].cache.cells|
    requires states[i].cache.cells[id].key == steps[i].key
    requires forall j :: 0 <= j < i && steps[j].Settle? && steps[j].cell == id ==> steps[j].outcome.Indeterminate?
    ensures Admit(config, states[i].cache, steps[i].key, states[i].clock).1 == Joined(id)
  {
    RunInv(config, states, steps, i);
    var c := states[i].cache;
    if c.cells[id].result.Some? {
      ResultIsSettled(config, states, steps, i, id, c.cells[id].result.value);
      var j :| 0 <= j < i && SettledAt(states, steps, j, id, c.cells[id].result.value);
    }
    assert !Determinate(c, id);
    AdmitMeans(config, c, steps[i].key, states[i].clock);
  }
}
