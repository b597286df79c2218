/** One server stream explained by the steps of a run: which signal ends it and why, what the
    counters count, when credit is lost, and that a cancel stops the server. */
module StreamHistory {
  import opened Common
  import opened Callbacks
  import opened ServerStream
  import opened StreamRuns
  import opened StreamOrder

  lemma Next<T>(states: seq<Sys<T>>, steps: seq<Step<T>>, i: nat)
    requires Run(states, steps) && 0 < i < |states|
    ensures Enabled(states[i - 1], steps[i - 1]) && states[i] == Apply(states[i - 1], steps[i - 1])
  {
    assert states[i - 1 + 1] == Apply(states[i - 1], steps[i - 1]);
  }

  lemma CreditHolds<T>(states: seq<Sys<T>>, steps: seq<Step<T>>, i: nat)
    requires Run(states, steps) && i < |states|
    ensures CreditInv(states[i])
  {
    RunInv(states, steps, i);
  }

  // ---------------------------------------------------------------------------
  // The shape of a step

  /** Steps that run a section of the stream object, and its effect. */
  predicate IsSection<T>(step: Step<T>) {
    step.EndRequest? || step.EndEmit? || step.SubscribeReturns? || step.FinishStop?
  }

  function EffectOf<T>(s: Sys<T>, step: Step<T>): Effect<T>
    requires Enabled(s, step) && IsSection(step)
  {
    match step
    case EndRequest => RequestBody(s.stream, s.lock.count)
    case EndEmit => EmitBody(s.stream, s.lock.item)
    case SubscribeReturns => Signal(s.stream.(flags := s.stream.flags.(subscribing := false)))
    case FinishStop => if s.stream.flags.cancelled then Effect(s.stream, None, 0, true) else Signal(s.stream)
  }

  lemma SectionShape<T>(s: Sys<T>, step: Step<T>)
    requires Enabled(s, step) && IsSection(step)
    ensures var t, effect := Apply(s, step), EffectOf(s, step);
      && t.stream == effect.stream && t.drain == After(s, effect).drain
      && t.toClient == s.toClient && t.server == s.server && t.produced == s.produced
      && t.toServer == s.toServer + SentBy(effect)
  {
  }

  predicate WireStep<T>(step: Step<T>) {
    step.SendCancel? || step.DropRequestFrame? || step.ServerReceive? || step.TakePermit? || step.SendItem? ||
    step.ReplaceItem? || step.SpoilQueued? || step.Close?
  }

  /** What remains touches neither the callbacks nor, but for its end, the counters. */
  lemma ClientShape<T>(s: Sys<T>, step: Step<T>)
    requires Enabled(s, step) && (step.Subscribe? || step.BeginRequest? || step.Receive? || step.Stop?)
    ensures var t := Apply(s, step);
      && t.drain == s.drain && t.server == s.server && t.produced == s.produced && t.toServer == s.toServer
      && t.toClient == (if step.Receive? then s.toClient[1..] else s.toClient)
      && t.emitted == s.emitted && t.requested == s.requested && t.faulted == s.faulted
      && t.stream.flags.delivered == s.stream.flags.delivered
      && t.stream.flags.subscribed == (s.stream.flags.subscribed || step.Subscribe?)
  {
  }

  lemma ActShape<T>(s: Sys<T>, step: Step<T>)
    requires Enabled(s, step) && step.Act?
    ensures var t := Apply(s, step);
      && t.toClient == s.toClient && t.server == s.server && t.produced == s.produced && t.lock == s.lock
      && t.stream.flags == s.stream.flags && t.emitted == s.emitted && t.requested == s.requested
      && t.finisher == s.finisher && t.faulted == s.faulted
      && t.drain.added == s.drain.added + (if step.action.Check? && s.drain.queue != [] then [Wakeup] else [])
      && s.toServer <= t.toServer && forall i :: |s.toServer| <= i < |t.toServer| ==> t.toServer[i].CreditFrame?
  {
    ActLeavesFlags(s, step.agent, step.action);
  }

  // ---------------------------------------------------------------------------
  // The end of the stream

  /** How a stream ends: with an error or not, cancelled or not. */
  datatype Ending = Ending(failed: bool, cancelled: bool)

  /** The ending a step gives to a live stream: the server's last frame, `complete`, `fail` or
      `cancel`, a request for no items, or an item without credit. */
  function EndingOf<T>(s: Sys<T>, step: Step<T>): Option<Ending>
    requires Enabled(s, step)
  {
    match step
    case Receive =>
      (match s.toClient[0]
       case EndFrame => Some(Ending(false, false))
       case ErrorFrame(_) => Some(Ending(true, false))
       case ItemFrame(_) => None)
    case Stop(failed, cancel) => Some(Ending(failed, cancel))
    case EndRequest => if s.lock.count <= 0 then Some(Ending(true, false)) else None
    case EndEmit => if MayEmit(s.stream) then None else Some(Ending(true, false))
    case _ => None
  }

  /** The k-th step ended the stream. */
  predicate EndedAt<T>(states: seq<Sys<T>>, steps: seq<Step<T>>, k: int, ending: Ending) {
    && 0 <= k < |steps| && k < |states| && !states[k].stream.flags.terminated
    && Enabled(states[k], steps[k]) && EndingOf(states[k], steps[k]) == Some(ending)
  }

  function EndingIn(flags: Flags): Ending {
    Ending(flags.failed, flags.cancelled)
  }

  /** Only `EndingOf` ends a stream, and what ended it stays. */
  predicate EndsRight<T>(s: Sys<T>, step: Step<T>, t: Sys<T>) {
    && Enabled(s, step)
    && if s.stream.flags.terminated then
         t.stream.flags.terminated && EndingIn(t.stream.flags) == EndingIn(s.stream.flags)
       else if EndingOf(s, step).Some? then
         t.stream.flags.terminated && EndingIn(t.stream.flags) == EndingOf(s, step).value
       else !t.stream.flags.terminated
  }

  lemma StepEndsRight<T>(s: Sys<T>, step: Step<T>)
    requires Enabled(s, step)
    ensures EndsRight(s, step, Apply(s, step))
  {
    if step.Act? {
      ActShape(s, step);
    } else if WireStep(step) {
      WireStepKeepsStream(s, step);
    } else if IsSection(step) {
      SectionEndsRight(s, step);
    } else {
      OthersEndRight(s, step);
    }
  }

  lemma SectionEndsRight<T>(s: Sys<T>, step: Step<T>)
    requires Enabled(s, step) && IsSection(step)
    ensures EndsRight(s, step, Apply(s, step))
  {
    SectionShape(s, step);
  }

  lemma OthersEndRight<T>(s: Sys<T>, step: Step<T>)
    requires Enabled(s, step) && (step.Subscribe? || step.BeginRequest? || step.Receive? || step.Stop?)
    ensures EndsRight(s, step, Apply(s, step))
  {
    if step.Receive? {
      ReceiveEndsRight(s);
    }
  }

  lemma ReceiveEndsRight<T>(s: Sys<T>)
    requires Enabled(s, Receive)
    ensures EndsRight(s, Receive, Apply(s, Receive))
  {
  }

  lemma NextEndsRight<T>(states: seq<Sys<T>>, steps: seq<Step<T>>, k: nat)
    requires Run(states, steps) && k < |steps|
    ensures EndsRight(states[k], steps[k], states[k + 1])
  {
    assert states[k + 1] == Apply(states[k], steps[k]);
    StepEndsRight(states[k], steps[k]);
  }

  lemma {:induction false} EndFollows<T>(states: seq<Sys<T>>, steps: seq<Step<T>>, i: nat)
    requires |states| == |steps| + 1 && i < |states| && !states[0].stream.flags.terminated
    requires forall k :: 0 <= k < |steps| ==> EndsRight(states[k], steps[k], states[k + 1])
    ensures states[i].stream.flags.terminated <==>
      exists k :: 0 <= k < i && EndedAt(states, steps, k, EndingIn(states[i].stream.flags))
    ensures forall k, ending :: 0 <= k < i && EndedAt(states, steps, k, ending) ==>
      states[i].stream.flags.terminated && ending == EndingIn(states[i].stream.flags)
  {
    if i > 0 {
      EndFollows(states, steps, i - 1);
      assert EndsRight(states[i - 1], steps[i - 1], states[i - 1 + 1]);
      var flags, flags' := states[i - 1].stream.flags, states[i].stream.flags;
      if flags.terminated {
        var k :| 0 <= k < i - 1 && EndedAt(states, steps, k, EndingIn(flags));
        assert EndedAt(states, steps, k, EndingIn(flags'));
      } else if flags'.terminated {
        assert EndedAt(states, steps, i - 1, EndingIn(flags'));
      }
    }
  }

  /** Whatever terminal signal is queued has the stream's own ending, and a cancelled stream
      queues none. */
  ghost predicate SignalsRight<T>(s: Sys<T>) {
    forall i :: 0 <= i < |s.drain.added| && s.drain.added[i].OnTerminal? ==>
      s.stream.flags.terminated && !s.stream.flags.cancelled && s.drain.added[i].failed == s.stream.flags.failed
  }

  /** A section signals the ending it leaves behind. */
  predicate SignalOf<T>(effect: Effect<T>) {
    effect.queued.Some? && effect.queued.value.OnTerminal? ==>
      && effect.stream.flags.terminated && !effect.stream.flags.cancelled
      && effect.queued.value.failed == effect.stream.flags.failed
  }

  lemma SectionSignals<T>(s: Sys<T>, step: Step<T>)
    requires Enabled(s, step) && IsSection(step)
    ensures SignalOf(EffectOf(s, step))
  {
  }

  /** A step that queues nothing, or a signal of the ending it leaves. */
  lemma SignalsStayRight<T>(s: Sys<T>, step: Step<T>, t: Sys<T>, queued: Option<Callback<T>>)
    requires SignalsRight(s) && EndsRight(s, step, t)
    requires t.drain.added == if queued.Some? then s.drain.added + [queued.value] else s.drain.added
    requires queued.Some? && queued.value.OnTerminal? ==>
      t.stream.flags.terminated && !t.stream.flags.cancelled && queued.value.failed == t.stream.flags.failed
    ensures SignalsRight(t)
  {
    forall i | 0 <= i < |t.drain.added| && t.drain.added[i].OnTerminal?
      ensures t.stream.flags.terminated && !t.stream.flags.cancelled
      ensures t.drain.added[i].failed == t.stream.flags.failed
    {
      if i < |s.drain.added| { assert t.drain.added[i] == s.drain.added[i]; }
    }
  }

  lemma StepSignalsRight<T>(s: Sys<T>, step: Step<T>)
    requires SignalsRight(s) && Enabled(s, step)
    ensures SignalsRight(Apply(s, step))
  {
    StepEndsRight(s, step);
    if step.Act? {
      ActShape(s, step);
      var wakes := step.action.Check? && s.drain.queue != [];
      SignalsStayRight(s, step, Apply(s, step), if wakes then Some(Wakeup) else None);
    } else if IsSection(step) {
      SectionShape(s, step);
      SectionSignals(s, step);
      SignalsStayRight(s, step, Apply(s, step), EffectOf(s, step).queued);
    } else {
      OthersAddNothing(s, step);
      SignalsStayRight(s, step, Apply(s, step), None);
    }
  }

  lemma OthersAddNothing<T>(s: Sys<T>, step: Step<T>)
    requires Enabled(s, step) && !step.Act? && !IsSection(step)
    ensures Apply(s, step).drain == s.drain
  {
    if WireStep(step) {
      WireStepKeepsStream(s, step);
    } else {
      ClientShape(s, step);
    }
  }

  lemma NextSignalsRight<T>(states: seq<Sys<T>>, steps: seq<Step<T>>, i: nat)
    requires Run(states, steps) && 0 < i < |states| && SignalsRight(states[i - 1])
    ensures SignalsRight(states[i])
  {
    assert states[i - 1 + 1] == Apply(states[i - 1], steps[i - 1]);
    StepSignalsRight(states[i - 1], steps[i - 1]);
  }

  lemma {:induction false} RunSignalsRight<T>(states: seq<Sys<T>>, steps: seq<Step<T>>, i: nat)
    requires Run(states, steps) && i < |states|
    ensures SignalsRight(states[i])
  {
    if i > 0 {
      RunSignalsRight(states, steps, i - 1);
      NextSignalsRight(states, steps, i);
    }
  }

  /** The stream has ended if and only if some step ended it, and there is only one such step. */
  lemma EndedIff<T>(states: seq<Sys<T>>, steps: seq<Step<T>>, i: nat)
    requires Run(states, steps) && i < |states|
    ensures states[i].stream.flags.terminated <==>
      exists k :: 0 <= k < i && EndedAt(states, steps, k, EndingIn(states[i].stream.flags))
    ensures forall k, ending :: 0 <= k < i && EndedAt(states, steps, k, ending) ==>
      states[i].stream.flags.terminated && ending == EndingIn(states[i].stream.flags)
  {
    forall k | 0 <= k < |steps| ensures EndsRight(states[k], steps[k], states[k + 1]) {
      NextEndsRight(states, steps, k);
    }
    EndFollows(states, steps, i);
  }

  /** The terminal signal a subscriber gets is the one of the step that ended the stream:
      completion for the server's END or `complete`, an error for ERROR, `fail`, a bad request
      or an item without credit, and none for a cancel. */
  lemma SignalMatchesEnding<T>(states: seq<Sys<T>>, steps: seq<Step<T>>, k: nat, i: nat, ending: Ending, a: nat)
    requires Run(states, steps) && k < i < |states| && EndedAt(states, steps, k, ending)
    requires a < |states[i].drain.added| && states[i].drain.added[a].OnTerminal?
    ensures !ending.cancelled && states[i].drain.added[a] == OnTerminal(ending.failed)
  {
    RunSignalsRight(states, steps, i);
    EndedIff(states, steps, i);
  }

  /** The terminal signal waits until `onSubscribe` has returned. */
  predicate SignalWaits<T>(s: Sys<T>) {
    && (s.stream.flags.subscribing ==> !s.stream.flags.delivered && s.stream.flags.subscribed)
    && (s.stream.flags.delivered ==> s.stream.flags.subscribed)
  }

  lemma SectionWaits<T>(s: Sys<T>, step: Step<T>)
    requires SignalWaits(s) && Enabled(s, step) && IsSection(step)
    ensures SignalWaits(Apply(s, step))
  {
    SectionShape(s, step);
  }

  lemma StepWaits<T>(s: Sys<T>, step: Step<T>)
    requires SignalWaits(s) && Enabled(s, step)
    ensures SignalWaits(Apply(s, step))
  {
    if step.Act? {
      ActShape(s, step);
    } else if WireStep(step) {
      WireStepKeepsStream(s, step);
    } else if IsSection(step) {
      SectionWaits(s, step);
    }
  }

  lemma NextWaits<T>(states: seq<Sys<T>>, steps: seq<Step<T>>, i: nat)
    requires Run(states, steps) && 0 < i < |states| && SignalWaits(states[i - 1])
    ensures SignalWaits(states[i])
  {
    Next(states, steps, i);
    StepWaits(states[i - 1], steps[i - 1]);
  }

  lemma {:induction false} NoSignalWhileSubscribing<T>(states: seq<Sys<T>>, steps: seq<Step<T>>, i: nat)
    requires Run(states, steps) && i < |states|
    ensures SignalWaits(states[i])
    ensures states[i].stream.flags.subscribing ==>
      forall a :: 0 <= a < |states[i].drain.added| ==> !states[i].drain.added[a].OnTerminal?
  {
    if i > 0 {
      NoSignalWhileSubscribing(states, steps, i - 1);
      NextWaits(states, steps, i);
    }
    DeliveredHolds(states, steps, i);
  }

  lemma DeliveredHolds<T>(states: seq<Sys<T>>, steps: seq<Step<T>>, i: nat)
    requires Run(states, steps) && i < |states|
    ensures !states[i].stream.flags.delivered ==>
      forall a :: 0 <= a < |states[i].drain.added| ==> !states[i].drain.added[a].OnTerminal?
  {
    RunInv(states, steps, i);
  }

  // ---------------------------------------------------------------------------
  // What the counters count

  function Asked<T>(step: Step<T>): int {
    if step.BeginRequest? && step.count > 0 then step.count else 0
  }

  /** What a request under way will add. */
  function Asking<T>(lock: Lock<T>): int {
    if lock.Requesting? && lock.count > 0 then lock.count else 0
  }

  function Produces<T>(step: Step<T>): seq<T> {
    if step.TakePermit? then [step.item] else []
  }

  function Emits<T>(step: Step<T>): int {
    if step.EndEmit? then 1 else 0
  }

  ghost predicate Counts<T>(s: Sys<T>, step: Step<T>, t: Sys<T>) {
    && t.requested + Asking(t.lock) == s.requested + Asking(s.lock) + Asked(step)
    && t.emitted == s.emitted + Emits(step)
    && t.produced == s.produced + Produces(step)
  }

  lemma StepCounts<T>(s: Sys<T>, step: Step<T>)
    requires (s.lock.Emitting? ==> MayEmit(s.stream)) && Enabled(s, step)
    ensures Counts(s, step, Apply(s, step))
  {
    if step.Act? {
      ActShape(s, step);
    } else if WireStep(step) {
      WireCounts(s, step);
    } else if IsSection(step) {
      SectionCounts(s, step);
    } else {
      ClientShape(s, step);
    }
  }

  lemma WireCounts<T>(s: Sys<T>, step: Step<T>)
    requires Enabled(s, step) && WireStep(step)
    ensures Counts(s, step, Apply(s, step))
  {
  }

  lemma SectionCounts<T>(s: Sys<T>, step: Step<T>)
    requires (s.lock.Emitting? ==> MayEmit(s.stream)) && Enabled(s, step) && IsSection(step)
    ensures Counts(s, step, Apply(s, step))
  {
  }

  lemma NextCounts<T>(states: seq<Sys<T>>, steps: seq<Step<T>>, k: nat)
    requires Run(states, steps) && k < |steps|
    ensures Counts(states[k], steps[k], states[k + 1])
  {
    CreditHolds(states, steps, k);
    Next(states, steps, k + 1);
    StepCounts(states[k], steps[k]);
  }

  /** Requested are all counts asked for, taken are all items `emit` ended with, and produced
      is what the server took a permit for. */
  lemma CountersCount<T>(states: seq<Sys<T>>, steps: seq<Step<T>>, i: nat)
    requires Run(states, steps) && i < |states|
    ensures states[i].requested + Asking(states[i].lock) == Sum(steps[..i], Asked)
    ensures states[i].emitted == Sum(steps[..i], Emits)
    ensures states[i].produced == FlatMap(steps[..i], Produces)
  {
    var asked := (s: Sys<T>) => s.requested + Asking(s.lock);
    var taken := (s: Sys<T>) => s.emitted;
    forall k | 0 <= k < |steps|
      ensures asked(states[k + 1]) == asked(states[k]) + Asked(steps[k])
      ensures taken(states[k + 1]) == taken(states[k]) + Emits(steps[k])
      ensures states[k + 1].produced == states[k].produced + Produces(steps[k])
    {
      NextCounts(states, steps, k);
    }
    Accumulates(states, steps, asked, Asked, i);
    Accumulates(states, steps, taken, Emits, i);
    ProducedFollows(states, steps, i);
  }

  lemma {:induction false} ProducedFollows<T>(states: seq<Sys<T>>, steps: seq<Step<T>>, i: nat)
    requires |states| == |steps| + 1 && i < |states| && states[0].produced == []
    requires forall k :: 0 <= k < |steps| ==> states[k + 1].produced == states[k].produced + Produces(steps[k])
    ensures states[i].produced == FlatMap(steps[..i], Produces)
  {
    if i > 0 {
      ProducedFollows(states, steps, i - 1);
      assert states[i - 1 + 1].produced == states[i - 1].produced + Produces(steps[i - 1]);
      assert steps[..i] == steps[..i - 1] + [steps[i - 1]];
      FlatMapAppend(steps[..i - 1], steps[i - 1], Produces);
    }
  }

  lemma SubscribedIff<T>(states: seq<Sys<T>>, steps: seq<Step<T>>, i: nat)
    requires Run(states, steps) && i < |states|
    ensures states[i].stream.flags.subscribed <==> exists j :: 0 <= j < i && steps[j] == Subscribe
  {
    forall k | 0 < k < |states|
      ensures states[k].stream.flags.subscribed <==> states[k - 1].stream.flags.subscribed || steps[k - 1] == Subscribe
    {
      NextSubscribes(states, steps, k);
    }
    SubscribedFollows(states, steps, i);
  }

  lemma {:induction false} SubscribedFollows<T>(states: seq<Sys<T>>, steps: seq<Step<T>>, i: nat)
    requires |states| == |steps| + 1 && i < |states| && !states[0].stream.flags.subscribed
    requires forall k :: 0 < k < |states| ==>
      (states[k].stream.flags.subscribed <==> states[k - 1].stream.flags.subscribed || steps[k - 1] == Subscribe)
    ensures states[i].stream.flags.subscribed <==> exists j :: 0 <= j < i && steps[j] == Subscribe
  {
    if i > 0 {
      SubscribedFollows(states, steps, i - 1);
    }
  }

  lemma NextSubscribes<T>(states: seq<Sys<T>>, steps: seq<Step<T>>, i: nat)
    requires Run(states, steps) && 0 < i < |states|
    ensures states[i].stream.flags.subscribed <==> states[i - 1].stream.flags.subscribed || steps[i - 1] == Subscribe
  {
    var s, step := states[i - 1], steps[i - 1];
    assert states[i - 1 + 1] == Apply(s, step);
    if step.Act? {
      ActShape(s, step);
    } else if WireStep(step) {
      WireStepKeepsStream(s, step);
    } else if IsSection(step) {
      SectionShape(s, step);
    } else {
      ClientShape(s, step);
    }
  }

  // ---------------------------------------------------------------------------
  // Lost credit

  /** What can lose credit: an item that is replaced, a request that is dropped or refused, a
      cancel, and the end of the server's part. Saturated permits are not among them. */
  predicate LosesCredit<T>(s: Sys<T>, step: Step<T>) {
    || step.ReplaceItem? || step.SpoilQueued? || step.Close? || step.DropRequestFrame?
    || (step.ServerReceive? && s.toServer != [] && s.toServer[0].RequestFrame? && !step.admit)
    || (step.ServerReceive? && s.toServer != [] && s.toServer[0].CancelFrame? && s.server.Serving?)
  }

  /** The item a step brings under the client's lock. */
  function ItemReceived<T>(s: Sys<T>, step: Step<T>): seq<T> {
    if step.Receive? && s.toClient != [] && s.toClient[0].ItemFrame? && !s.stream.flags.terminated
    then [s.toClient[0].item] else []
  }

  /** Items queued and the one under the lock change only by what is received. */
  ghost predicate TakesRight<T>(s: Sys<T>, step: Step<T>, t: Sys<T>) {
    Taken(t) + LockItem(t.lock) == Taken(s) + LockItem(s.lock) + ItemReceived(s, step)
  }

  lemma StepTakes<T>(s: Sys<T>, step: Step<T>)
    requires (s.lock.Emitting? ==> MayEmit(s.stream)) && Enabled(s, step)
    ensures TakesRight(s, step, Apply(s, step))
  {
    StepLocks(s, step);
    if step.Act? {
      ActTakes(s, step);
    } else if IsSection(step) {
      SectionTakes(s, step);
    } else {
      OthersAddNothing(s, step);
    }
  }

  lemma ActTakes<T>(s: Sys<T>, step: Step<T>)
    requires Enabled(s, step) && step.Act?
    ensures Taken(Apply(s, step)) == Taken(s)
  {
    ActShape(s, step);
    FlatMapAppend(s.drain.added, Wakeup, CallbackItem);
  }

  lemma SectionTakes<T>(s: Sys<T>, step: Step<T>)
    requires (s.lock.Emitting? ==> MayEmit(s.stream)) && Enabled(s, step) && IsSection(step)
    ensures Taken(Apply(s, step)) == Taken(s) + if step.EndEmit? then [s.lock.item] else []
  {
    SectionShape(s, step);
    AfterTaken(s, EffectOf(s, step));
  }

  lemma StepLocks<T>(s: Sys<T>, step: Step<T>)
    requires Enabled(s, step)
    ensures LockItem(Apply(s, step).lock) == if step.EndEmit? then [] else LockItem(s.lock) + ItemReceived(s, step)
  {
    if step.Act? {
      ActShape(s, step);
    } else if WireStep(step) {
      WireStepKeepsStream(s, step);
    }
  }

  lemma NextTakes<T>(states: seq<Sys<T>>, steps: seq<Step<T>>, k: nat)
    requires Run(states, steps) && k < |steps|
    ensures TakesRight(states[k], steps[k], states[k + 1])
    ensures LockItem(states[k + 1].lock) ==
      if steps[k].EndEmit? then [] else LockItem(states[k].lock) + ItemReceived(states[k], steps[k])
    ensures steps[k].EndEmit? ==> |LockItem(states[k].lock)| == 1
  {
    CreditHolds(states, steps, k);
    Next(states, steps, k + 1);
    StepTakes(states[k], steps[k]);
    StepLocks(states[k], steps[k]);
  }

  /** Items taken are items produced. */
  lemma {:induction false} TakenCounted<T>(states: seq<Sys<T>>, steps: seq<Step<T>>, i: nat)
    requires Run(states, steps) && i < |states|
    ensures states[i].emitted == |Taken(states[i])| <= |states[i].produced|
  {
    if i > 0 {
      TakenCounted(states, steps, i - 1);
      NextTakes(states, steps, i - 1);
      NextCounts(states, steps, i - 1);
    }
    TakenWithin(states, steps, i);
  }

  lemma TakenWithin<T>(states: seq<Sys<T>>, steps: seq<Step<T>>, i: nat)
    requires Run(states, steps) && i < |states|
    ensures |Taken(states[i])| <= |states[i].produced|
  {
    RunInv(states, steps, i);
  }

  /** Credit reaches a server that is serving. */
  predicate CreditComes<T>(s: Sys<T>, step: Step<T>) {
    step.ServerReceive? && s.toServer != [] && s.toServer[0].CreditFrame? && s.server.Serving?
  }

  /** Permits never saturate: there is not that much credit. */
  lemma PermitsFit<T>(s: Sys<T>)
    requires FramesOk(s.toServer) && Balanced(s.stream) && ProducedInv(s) && s.emitted <= |s.produced|
    requires s.toServer != [] && s.toServer[0].CreditFrame? && s.server.Serving?
    ensures s.server.permits + s.toServer[0].count <= MAX_PENDING_CALLBACKS <= MAX_PERMITS
  {
    assert Sum(s.toServer, CreditOf) == CreditOf(s.toServer[0]) + Sum(s.toServer[1..], CreditOf);
    forall f | f in s.toServer[1..] ensures CreditOf(f) >= 0 {
      assert f in s.toServer;
    }
    SumBounds(s.toServer[1..], CreditOf);
  }

  lemma StepFaults<T>(s: Sys<T>, step: Step<T>)
    requires Enabled(s, step)
    requires CreditComes(s, step) ==> s.server.permits + s.toServer[0].count <= MAX_PERMITS
    ensures Apply(s, step).faulted <==> s.faulted || LosesCredit(s, step)
  {
    if step.Act? {
      ActShape(s, step);
    }
  }

  /** Credit is lost only by the steps that may lose it. */
  lemma FaultedIff<T>(states: seq<Sys<T>>, steps: seq<Step<T>>, i: nat)
    requires Run(states, steps) && i < |states|
    ensures states[i].faulted <==> exists j :: 0 <= j < i && LosesCredit(states[j], steps[j])
  {
    forall k | 0 <= k < |steps|
      ensures states[k + 1].faulted <==> states[k].faulted || LosesCredit(states[k], steps[k])
    {
      NextFaults(states, steps, k);
    }
    FaultsFollow(states, steps, i);
  }

  lemma NextFaults<T>(states: seq<Sys<T>>, steps: seq<Step<T>>, k: nat)
    requires Run(states, steps) && k < |steps|
    ensures states[k + 1].faulted <==> states[k].faulted || LosesCredit(states[k], steps[k])
  {
    Next(states, steps, k + 1);
    if CreditComes(states[k], steps[k]) {
      CreditFits(states, steps, k);
    }
    StepFaults(states[k], steps[k]);
  }

  lemma CreditFits<T>(states: seq<Sys<T>>, steps: seq<Step<T>>, k: nat)
    requires Run(states, steps) && k < |steps| && CreditComes(states[k], steps[k])
    ensures states[k].server.permits + states[k].toServer[0].count <= MAX_PENDING_CALLBACKS <= MAX_PERMITS
  {
    RunInv(states, steps, k);
    TakenCounted(states, steps, k);
    PermitsFit(states[k]);
  }

  lemma {:induction false} FaultsFollow<T>(states: seq<Sys<T>>, steps: seq<Step<T>>, i: nat)
    requires |states| == |steps| + 1 && i < |states| && !states[0].faulted
    requires forall k :: 0 <= k < |steps| ==>
      (states[k + 1].faulted <==> states[k].faulted || LosesCredit(states[k], steps[k]))
    ensures states[i].faulted <==> exists j :: 0 <= j < i && LosesCredit(states[j], steps[j])
  {
    if i > 0 {
      FaultsFollow(states, steps, i - 1);
      assert states[i - 1 + 1].faulted <==> states[i - 1].faulted || LosesCredit(states[i - 1], steps[i - 1]);
    }
  }

  /** Until then all the credit of a live stream is on its way, and all that reaches the server
      becomes permits. */
  lemma CreditArrivesWhole<T>(states: seq<Sys<T>>, steps: seq<Step<T>>, i: nat)
    requires Run(states, steps) && i < |states| && !states[i].stream.flags.terminated
    requires forall j :: 0 <= j < i ==> !LosesCredit(states[j], steps[j])
    ensures Sum(states[i].toServer, CreditOf) + HeldCount(states[i].server) + Sum(states[i].toClient, ItemOf)
      + EmittingCount(states[i]) == states[i].stream.outstanding
    ensures Taken(states[i]) + LockItem(states[i].lock) + FlatMap(states[i].toClient, FrameItem)
      + HeldItem(states[i].server) == states[i].produced
  {
    RunInv(states, steps, i);
    FaultedIff(states, steps, i);
  }

  // ---------------------------------------------------------------------------
  // Cancellation

  /** The server will produce nothing any more. */
  ghost predicate Over<T>(s: Sys<T>) {
    !s.server.Serving? && forall j :: 0 <= j < |s.toServer| ==> !s.toServer[j].RequestFrame?
  }

  ghost predicate NothingMore<T>(s: Sys<T>, t: Sys<T>) {
    t.produced == s.produced && t.server.Ended? == s.server.Ended? && !t.server.Serving?
  }

  lemma StepStaysOver<T>(s: Sys<T>, step: Step<T>)
    requires Enabled(s, step) && Over(s)
    ensures Over(Apply(s, step)) && NothingMore(s, Apply(s, step))
  {
    if step.Act? {
      ActShape(s, step);
    } else if IsSection(step) {
      SectionShape(s, step);
    } else if WireStep(step) {
      WireStaysOver(s, step);
    } else {
      ClientShape(s, step);
    }
  }

  lemma WireStaysOver<T>(s: Sys<T>, step: Step<T>)
    requires Enabled(s, step) && Over(s) && WireStep(step)
    ensures Over(Apply(s, step)) && NothingMore(s, Apply(s, step))
  {
  }

  lemma NextStaysOver<T>(states: seq<Sys<T>>, steps: seq<Step<T>>, k: nat)
    requires Run(states, steps) && k < |steps| && Over(states[k])
    ensures Over(states[k + 1]) && NothingMore(states[k], states[k + 1])
  {
    assert states[k + 1] == Apply(states[k], steps[k]);
    StepStaysOver(states[k], steps[k]);
  }

  lemma CancelEnds<T>(s: Sys<T>, admit: bool)
    requires WireOk(s) && Enabled(s, ServerReceive(admit)) && s.toServer[0].CancelFrame?
    ensures Over(Apply(s, ServerReceive(admit)))
  {
  }

  lemma NextCancelEnds<T>(states: seq<Sys<T>>, steps: seq<Step<T>>, j: nat)
    requires Run(states, steps) && j < |steps|
    requires steps[j].ServerReceive? && states[j].toServer != [] && states[j].toServer[0].CancelFrame?
    ensures Over(states[j + 1]) && states[j + 1].produced == states[j].produced
  {
    CreditHolds(states, steps, j);
    Next(states, steps, j + 1);
    CancelEnds(states[j], steps[j].admit);
  }

  /** Once a cancel has reached the server it produces nothing more. */
  lemma {:induction false} CancelStopsServer<T>(states: seq<Sys<T>>, steps: seq<Step<T>>, j: nat, i: nat)
    requires Run(states, steps) && j < i < |states|
    requires steps[j].ServerReceive? && states[j].toServer != [] && states[j].toServer[0].CancelFrame?
    ensures Over(states[i]) && states[i].produced == states[j].produced
    decreases i
  {
    if j == i - 1 {
      NextCancelEnds(states, steps, j);
    } else {
      CancelStopsServer(states, steps, j, i - 1);
      NextStaysOver(states, steps, i - 1);
    }
  }

  /** The step puts a CANCEL on the wire. */
  predicate SendsCancel<T>(s: Sys<T>, t: Sys<T>) {
    t.toServer != [] && t.toServer[|t.toServer| - 1].CancelFrame? && |t.toServer| > |s.toServer|
  }

  predicate CancelSentAt<T>(states: seq<Sys<T>>, j: int) {
    0 <= j && j + 1 < |states| && SendsCancel(states[j], states[j + 1])
  }

  predicate CancelledThrough<T>(s: Sys<T>) {
    s.stream.flags.cancelled && s.finisher.Through?
  }

  /** A cancelled stream whose end is through has sent a CANCEL. */
  lemma CancelIsSent<T>(states: seq<Sys<T>>, steps: seq<Step<T>>, i: nat)
    requires Run(states, steps) && i < |states| && CancelledThrough(states[i])
    ensures exists j :: 0 <= j < i && CancelSentAt(states, j)
  {
    forall k | 0 < k < |states|
      ensures CancelledThrough(states[k]) ==> CancelledThrough(states[k - 1]) || SendsCancel(states[k - 1], states[k])
    {
      NextSendsCancel(states, steps, k);
    }
    CancelFollows(states, i);
  }

  lemma {:induction false} CancelFollows<T>(states: seq<Sys<T>>, i: nat)
    requires i < |states| && CancelledThrough(states[i]) && !CancelledThrough(states[0])
    requires forall k :: 0 < k < |states| && CancelledThrough(states[k]) ==>
      CancelledThrough(states[k - 1]) || SendsCancel(states[k - 1], states[k])
    ensures exists j :: 0 <= j < i && CancelSentAt(states, j)
  {
    if CancelledThrough(states[i - 1]) {
      CancelFollows(states, i - 1);
    } else {
      assert CancelSentAt(states, i - 1);
    }
  }

  /** So has every request for no items, at once. */
  lemma BadRequestCancels<T>(states: seq<Sys<T>>, steps: seq<Step<T>>, i: nat)
    requires Run(states, steps) && i < |steps| && steps[i].EndRequest? && states[i].lock.count <= 0
    ensures states[i + 1].stream.flags.terminated && CancelSentAt(states, i)
  {
    Next(states, steps, i + 1);
  }

  lemma NextSendsCancel<T>(states: seq<Sys<T>>, steps: seq<Step<T>>, k: nat)
    requires Run(states, steps) && 0 < k < |states|
    ensures CancelledThrough(states[k]) ==> CancelledThrough(states[k - 1]) || SendsCancel(states[k - 1], states[k])
  {
    RunInv(states, steps, k - 1);
    Next(states, steps, k);
    StepSendsCancel(states[k - 1], steps[k - 1]);
  }

  lemma StepSendsCancel<T>(s: Sys<T>, step: Step<T>)
    requires (s.finisher.NotStarted? <==> !s.stream.flags.terminated) && Enabled(s, step)
    ensures CancelledThrough(Apply(s, step)) ==> CancelledThrough(s) || SendsCancel(s, Apply(s, step))
  {
    if step.Act? {
      ActShape(s, step);
    } else if WireStep(step) {
      WireStepKeepsStream(s, step);
    } else {
      StepEndsRight(s, step);
      FinisherMoves(s, step);
      if step.FinishStop? { SectionShape(s, step); }
    }
  }

  lemma FinisherMoves<T>(s: Sys<T>, step: Step<T>)
    requires (s.finisher.NotStarted? <==> !s.stream.flags.terminated) && Enabled(s, step)
    requires !step.Act? && !WireStep(step)
    ensures var t := Apply(s, step);
      t.finisher.Through? ==>
        s.finisher.Through? || step.FinishStop? || (!s.stream.flags.terminated && (step.EndRequest? || step.EndEmit?))
  {
  }

  /** And an item without credit. */
  lemma UncreditedItemCancels<T>(s: Sys<T>)
    requires Enabled(s, EndEmit) && !MayEmit(s.stream)
    ensures Apply(s, EndEmit).stream.flags.terminated && SendsCancel(s, Apply(s, EndEmit))
  {
    SectionShape(s, EndEmit);
  }

  /** `finish` in one go is the two steps of the run, termination and what follows it. */
  lemma FinishIsTwoSteps<T>(s: Sys<T>, failed: bool, cancel: bool)
    requires LockFree(s) && !s.stream.flags.terminated
    ensures Enabled(s, Stop(failed, cancel)) && Enabled(Apply(s, Stop(failed, cancel)), FinishStop)
    ensures Apply(Apply(s, Stop(failed, cancel)), FinishStop) ==
      After(s, FinishNow(s.stream, failed, cancel)).(finisher := Through)
  {
    var t := Apply(s, Stop(failed, cancel));
    assert t == s.(stream := Terminate(s.stream, failed, cancel), finisher := Signalling);
    assert s.toServer + [] + [] == s.toServer && s.toServer + [] + [CancelFrame] == s.toServer + [CancelFrame];
  }

  // ---------------------------------------------------------------------------
  // The server's last frame

  /** The step queues this last frame: END only when the server closed the stream normally. */
  predicate Closes<T>(s: Sys<T>, step: Step<T>, frame: ToClient<T>) {
    || (frame.EndFrame? && step == Close(false))
    || (frame == ErrorFrame(None) &&
        (step == Close(true) || (step == ServerReceive(false) && s.toServer != [] && s.toServer[0].RequestFrame?)))
  }

  predicate IsLast<T>(frame: ToClient<T>) {
    frame.EndFrame? || frame == ErrorFrame(None)
  }

  lemma StepCloses<T>(s: Sys<T>, step: Step<T>, frame: ToClient<T>)
    requires Enabled(s, step) && IsLast(frame) && frame in Apply(s, step).toClient
    ensures frame in s.toClient || Closes(s, step, frame)
  {
    if step.Act? {
      ActShape(s, step);
    } else if IsSection(step) {
      SectionShape(s, step);
    } else if !WireStep(step) {
      ClientShape(s, step);
    }
  }

  ghost predicate ClosesNext<T>(s: Sys<T>, step: Step<T>, t: Sys<T>, frame: ToClient<T>) {
    frame in t.toClient ==> frame in s.toClient || Closes(s, step, frame)
  }

  lemma NextCloses<T>(states: seq<Sys<T>>, steps: seq<Step<T>>, k: nat, frame: ToClient<T>)
    requires Run(states, steps) && 0 < k < |states| && IsLast(frame)
    ensures ClosesNext(states[k - 1], steps[k - 1], states[k], frame)
  {
    assert states[k - 1 + 1] == Apply(states[k - 1], steps[k - 1]);
    if frame in states[k].toClient {
      StepCloses(states[k - 1], steps[k - 1], frame);
    }
  }

  lemma {:induction false} ClosesFollow<T>(states: seq<Sys<T>>, steps: seq<Step<T>>, i: nat, frame: ToClient<T>)
    returns (j: nat)
    requires |states| == |steps| + 1 && i < |states| && frame in states[i].toClient && states[0].toClient == []
    requires forall k :: 0 < k < |states| ==> ClosesNext(states[k - 1], steps[k - 1], states[k], frame)
    ensures j < i && Closes(states[j], steps[j], frame)
  {
    assert ClosesNext(states[i - 1], steps[i - 1], states[i], frame);
    if frame in states[i - 1].toClient {
      j := ClosesFollow(states, steps, i - 1, frame);
    } else {
      j := i - 1;
    }
  }

  /** The server's last frame comes from its close, or from a refused request. */
  lemma LastFrameExplained<T>(states: seq<Sys<T>>, steps: seq<Step<T>>, i: nat, frame: ToClient<T>) returns (j: nat)
    requires Run(states, steps) && i < |states| && IsLast(frame) && frame in states[i].toClient
    ensures j < i && Closes(states[j], steps[j], frame)
  {
    forall k | 0 < k < |states| ensures ClosesNext(states[k - 1], steps[k - 1], states[k], frame) {
      NextCloses(states, steps, k, frame);
    }
    j := ClosesFollow(states, steps, i, frame);
  }

  /** A stream that completes for the subscriber was closed normally by the server, or
      completed by the client itself. */
  lemma CompletedWasClosed<T>(states: seq<Sys<T>>, steps: seq<Step<T>>, i: nat, a: nat) returns (k: nat, j: nat)
    requires Run(states, steps) && i < |states|
    requires a < |states[i].drain.added| && states[i].drain.added[a] == OnTerminal(false)
    ensures k < i && EndedAt(states, steps, k, Ending(false, false))
    ensures steps[k] == Stop(false, false) || (steps[k] == Receive && j < k && steps[j] == Close(false))
  {
    RunSignalsRight(states, steps, i);
    EndedIff(states, steps, i);
    k :| 0 <= k < i && EndedAt(states, steps, k, Ending(false, false));
    j := 0;
    if steps[k].Receive? {
      assert states[k].toClient[0] == EndFrame && EndFrame in states[k].toClient;
      j := LastFrameExplained(states, steps, k, EndFrame);
    }
  }

  // ---------------------------------------------------------------------------
  // A completed stream is complete

  predicate EndIsLast<T>(frames: seq<ToClient<T>>) {
    frames != [] && frames[|frames| - 1].EndFrame? && forall i :: 0 <= i < |frames| - 1 ==> !frames[i].EndFrame?
  }

  /** The server has closed the stream normally with nothing in hand, and END is on its way
      behind all the items that are not yet at the client. */
  ghost predicate Closing<T>(s: Sys<T>) {
    && Over(s) && s.server.Ended? && !s.stream.flags.terminated && EndIsLast(s.toClient)
    && Taken(s) + LockItem(s.lock) + FlatMap(s.toClient, FrameItem) == s.produced
  }

  /** The client has everything. */
  ghost predicate Complete<T>(s: Sys<T>) {
    Over(s) && s.stream.flags.terminated && s.toClient == [] && Taken(s) + LockItem(s.lock) == s.produced
  }

  lemma CloseStartsClosing<T>(s: Sys<T>)
    requires FramesOk(s.toServer) && (s.toServer != [] && s.toServer[0].RequestFrame? ==> s.server.Waiting?)
    requires Pipeline(s) == s.produced && Enabled(s, Close(false))
    requires s.server.held.None? && !s.stream.flags.terminated
    requires forall i :: 0 <= i < |s.toClient| ==> !s.toClient[i].EndFrame?
    ensures Closing(Apply(s, Close(false)))
  {
    var t := Apply(s, Close(false));
    FlatMapAppend(s.toClient, EndFrame, FrameItem);
    assert Taken(t) == Taken(s) && HeldItem(s.server) == [];
    assert Pipeline(s) == Taken(s) + LockItem(s.lock) + FlatMap(s.toClient, FrameItem);
  }

  /** What the frames to the client do once the server's part is over. */
  ghost predicate FramesNext<T>(s: Sys<T>, step: Step<T>, t: Sys<T>) {
    && (!t.stream.flags.terminated ==>
         && EndIsLast(t.toClient)
         && FlatMap(s.toClient, FrameItem) == ItemReceived(s, step) + FlatMap(t.toClient, FrameItem))
    && (step.Receive? && s.toClient != [] && s.toClient[0].EndFrame? ==>
         t.stream.flags.terminated && t.toClient == [] && FlatMap(s.toClient, FrameItem) == [])
  }

  lemma ClosingFrom<T>(s: Sys<T>, step: Step<T>, t: Sys<T>)
    requires Closing(s) && Over(t) && NothingMore(s, t) && TakesRight(s, step, t) && FramesNext(s, step, t)
    ensures !t.stream.flags.terminated ==> Closing(t)
    ensures step.Receive? && s.toClient[0].EndFrame? ==> Complete(t)
  {
    var front := Taken(s) + LockItem(s.lock);
    if !t.stream.flags.terminated {
      Associates(front, ItemReceived(s, step), FlatMap(t.toClient, FrameItem));
    }
    if step.Receive? && s.toClient[0].EndFrame? {
      assert front + [] == front;
    }
  }

  lemma ClosingFrames<T>(s: Sys<T>, step: Step<T>)
    requires Over(s) && s.server.Ended? && !s.stream.flags.terminated && EndIsLast(s.toClient) && Enabled(s, step)
    ensures FramesNext(s, step, Apply(s, step))
  {
    if step.SpoilQueued? {
      FlatMapUpdate(s.toClient, step.index, ErrorFrame(Some(s.toClient[step.index].item)), FrameItem);
    } else if step.Receive? {
      ReceiveFrames(s);
    } else {
      OverLeavesFrames(s, step);
    }
  }

  lemma ReceiveFrames<T>(s: Sys<T>)
    requires !s.stream.flags.terminated && EndIsLast(s.toClient) && Enabled(s, Receive)
    ensures FramesNext(s, Receive, Apply(s, Receive))
  {
    assert FlatMap(s.toClient, FrameItem) == FrameItem(s.toClient[0]) + FlatMap(s.toClient[1..], FrameItem);
    StepEndsRight(s, Receive);
    ClientShape(s, Receive);
    if s.toClient[0].EndFrame? { assert s.toClient[1..] == []; }
  }

  lemma OverLeavesFrames<T>(s: Sys<T>, step: Step<T>)
    requires Over(s) && Enabled(s, step) && !step.SpoilQueued? && !step.Receive?
    ensures Apply(s, step).toClient == s.toClient
  {
    if step.Act? {
      ActShape(s, step);
    } else if IsSection(step) {
      SectionShape(s, step);
    } else if !WireStep(step) {
      ClientShape(s, step);
    }
  }

  /** END is queued by a close alone, which ends the server's part. */
  ghost predicate BeforeEnd<T>(s: Sys<T>, t: Sys<T>) {
    !t.server.Ended? ==> !s.server.Ended? && (EndFrame in t.toClient ==> EndFrame in s.toClient)
  }

  lemma NoEndBefore<T>(states: seq<Sys<T>>, steps: seq<Step<T>>, i: nat)
    requires Run(states, steps) && i < |states| && !states[i].server.Ended?
    ensures EndFrame !in states[i].toClient
  {
    forall k | 0 < k < |states| ensures BeforeEnd(states[k - 1], states[k]) {
      NextBeforeEnd(states, steps, k);
    }
    NoEndFollows(states, i);
  }

  lemma {:induction false} NoEndFollows<T>(states: seq<Sys<T>>, i: nat)
    requires i < |states| && states[0].toClient == [] && !states[i].server.Ended?
    requires forall k :: 0 < k < |states| ==> BeforeEnd(states[k - 1], states[k])
    ensures EndFrame !in states[i].toClient
  {
    if i > 0 {
      assert BeforeEnd(states[i - 1], states[i]);
      NoEndFollows(states, i - 1);
    }
  }

  lemma NextBeforeEnd<T>(states: seq<Sys<T>>, steps: seq<Step<T>>, i: nat)
    requires Run(states, steps) && 0 < i < |states|
    ensures BeforeEnd(states[i - 1], states[i])
  {
    if !states[i].server.Ended? {
      CreditHolds(states, steps, i - 1);
      Next(states, steps, i);
      StepBeforeEnd(states[i - 1], steps[i - 1]);
      if EndFrame in states[i].toClient {
        NextCloses(states, steps, i, EndFrame);
      }
    }
  }

  lemma StepBeforeEnd<T>(s: Sys<T>, step: Step<T>)
    requires Enabled(s, step) && (s.toServer != [] && s.toServer[0].RequestFrame? ==> s.server.Waiting?)
    requires !Apply(s, step).server.Ended?
    ensures !s.server.Ended? && !step.Close?
  {
    if step.Act? {
      ActShape(s, step);
    } else if IsSection(step) {
      SectionShape(s, step);
    } else if !WireStep(step) {
      ClientShape(s, step);
    }
  }

  lemma NextClosing<T>(states: seq<Sys<T>>, steps: seq<Step<T>>, k: nat)
    requires Run(states, steps) && 0 < k < |states| && Closing(states[k - 1])
    ensures !states[k].stream.flags.terminated ==> Closing(states[k])
    ensures steps[k - 1].Receive? && states[k - 1].toClient[0].EndFrame? ==> Complete(states[k])
  {
    NextStaysOver(states, steps, k - 1);
    NextTakes(states, steps, k - 1);
    NextFrames(states, steps, k - 1);
    ClosingFrom(states[k - 1], steps[k - 1], states[k]);
  }

  lemma NextFrames<T>(states: seq<Sys<T>>, steps: seq<Step<T>>, k: nat)
    requires Run(states, steps) && k < |steps| && Closing(states[k])
    ensures FramesNext(states[k], steps[k], states[k + 1])
  {
    assert states[k + 1] == Apply(states[k], steps[k]);
    ClosingFrames(states[k], steps[k]);
  }

  lemma NextComplete<T>(states: seq<Sys<T>>, steps: seq<Step<T>>, k: nat)
    requires Run(states, steps) && 0 < k < |states| && Complete(states[k - 1])
    ensures Complete(states[k])
  {
    NextStaysOver(states, steps, k - 1);
    NextTakes(states, steps, k - 1);
    NextEndsRight(states, steps, k - 1);
    NextStaysEmpty(states, steps, k - 1);
  }

  lemma NextStaysEmpty<T>(states: seq<Sys<T>>, steps: seq<Step<T>>, k: nat)
    requires Run(states, steps) && k < |steps| && Over(states[k]) && states[k].toClient == []
    ensures states[k + 1].toClient == []
  {
    assert states[k + 1] == Apply(states[k], steps[k]);
    OverLeavesFrames(states[k], steps[k]);
  }

  /** A closing stream stays so until it ends, and a complete one is complete for good. */
  ghost predicate KeepsClosing<T>(s: Sys<T>, t: Sys<T>) {
    && (s.stream.flags.terminated ==> t.stream.flags.terminated)
    && (Closing(s) && !t.stream.flags.terminated ==> Closing(t))
    && (Complete(s) ==> Complete(t))
  }

  lemma NextKeepsClosing<T>(states: seq<Sys<T>>, steps: seq<Step<T>>, k: nat)
    requires Run(states, steps) && 0 < k < |states|
    ensures KeepsClosing(states[k - 1], states[k])
  {
    NextEndsRight(states, steps, k - 1);
    if Closing(states[k - 1]) {
      NextClosing(states, steps, k);
    }
    if Complete(states[k - 1]) {
      NextComplete(states, steps, k);
    }
  }

  lemma KeptClosing<T>(states: seq<Sys<T>>, steps: seq<Step<T>>)
    requires Run(states, steps)
    ensures forall k :: 0 < k < |states| ==> KeepsClosing(states[k - 1], states[k])
  {
    forall k | 0 < k < |states| ensures KeepsClosing(states[k - 1], states[k]) {
      NextKeepsClosing(states, steps, k);
    }
  }

  lemma {:induction false} LiveBefore<T>(states: seq<Sys<T>>, j: nat, k: nat)
    requires j <= k < |states| && !states[k].stream.flags.terminated
    requires forall m :: 0 < m < |states| ==> KeepsClosing(states[m - 1], states[m])
    ensures !states[j].stream.flags.terminated
    decreases k
  {
    if j < k {
      assert KeepsClosing(states[k - 1], states[k]);
      LiveBefore(states, j, k - 1);
    }
  }

  lemma {:induction false} ClosingUntil<T>(states: seq<Sys<T>>, j: nat, k: nat)
    requires j <= k < |states| && Closing(states[j]) && !states[k].stream.flags.terminated
    requires forall m :: 0 < m < |states| ==> KeepsClosing(states[m - 1], states[m])
    ensures Closing(states[k])
    decreases k
  {
    if j < k {
      assert KeepsClosing(states[k - 1], states[k]);
      ClosingUntil(states, j, k - 1);
    }
  }

  lemma {:induction false} CompleteUntil<T>(states: seq<Sys<T>>, k: nat, i: nat)
    requires k <= i < |states| && Complete(states[k])
    requires forall m :: 0 < m < |states| ==> KeepsClosing(states[m - 1], states[m])
    ensures Complete(states[i])
    decreases i
  {
    if k < i {
      CompleteUntil(states, k, i - 1);
      assert KeepsClosing(states[i - 1], states[i]);
    }
  }

  lemma CloseNext<T>(states: seq<Sys<T>>, steps: seq<Step<T>>, j: nat)
    requires Run(states, steps) && j < |steps| && steps[j] == Close(false) && !states[j].stream.flags.terminated
    requires states[j].server.Serving? && states[j].server.held.None?
    ensures Closing(states[j + 1])
  {
    RunInv(states, steps, j);
    Next(states, steps, j + 1);
    NoEndBefore(states, steps, j);
    forall i | 0 <= i < |states[j].toClient| ensures !states[j].toClient[i].EndFrame? {
      assert states[j].toClient[i] in states[j].toClient;
    }
    CloseStartsClosing(states[j]);
  }

  /** If the server closed the stream normally with nothing in hand and its END is what ended
      the stream, the subscriber is given every item produced. */
  lemma CompletedStreamIsComplete<T>(states: seq<Sys<T>>, steps: seq<Step<T>>, j: nat, k: nat, i: nat)
    requires Run(states, steps) && j < k < i < |states|
    requires steps[j] == Close(false) && states[j].server.held.None?
    requires steps[k] == Receive && !states[k].stream.flags.terminated && states[k].toClient[0].EndFrame?
    requires !states[i].lock.Emitting?
    ensures FlatMap(states[i].drain.added, CallbackItem) == states[i].produced
  {
    KeptClosing(states, steps);
    LiveBefore(states, j, k);
    CloseNext(states, steps, j);
    ClosingUntil(states, j + 1, k);
    NextClosing(states, steps, k + 1);
    CompleteUntil(states, k + 1, i);
    assert LockItem(states[i].lock) == [] && Taken(states[i]) + [] == Taken(states[i]);
  }
}
