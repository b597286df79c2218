/** What a subscriber of a server stream sees: order of the callbacks, the terminal signal,
    demand, and the items themselves, over every run of `StreamRuns`. */
module StreamOrder {
  import opened Common
  import opened Callbacks
  import opened ServerStream
  import opened StreamRuns

  // ---------------------------------------------------------------------------
  // The terminal signal

  /** After the terminal signal nothing but wakeups is queued. */
  ghost predicate TerminalLast<T>(added: seq<Callback<T>>) {
    forall i, j :: 0 <= i < j < |added| && added[i].OnTerminal? ==> added[j].Wakeup?
  }

  ghost predicate TerminalInv<T>(s: Sys<T>) {
    && (s.stream.flags.subscribing <==> s.lock.Subscribing? || (s.lock.Requesting? && s.lock.nested))
    && (s.stream.flags.subscribing ==> s.stream.flags.subscribed)
    && (s.stream.flags.delivered ==> s.stream.flags.terminated && !s.lock.Emitting?)
    && (s.stream.flags.delivered <==> exists i :: 0 <= i < |s.drain.added| && s.drain.added[i].OnTerminal?)
    && TerminalLast(s.drain.added)
    && (s.finisher.NotStarted? <==> !s.stream.flags.terminated)
    && (s.finisher.Through? && !s.stream.flags.cancelled && s.stream.flags.subscribed && !s.stream.flags.subscribing ==>
         s.stream.flags.delivered)
  }

  ghost predicate TerminalOk<T>(stream: Stream, added: seq<Callback<T>>) {
    && (stream.flags.delivered ==> stream.flags.terminated)
    && (stream.flags.delivered <==> exists i :: 0 <= i < |added| && added[i].OnTerminal?)
    && TerminalLast(added)
  }

  lemma AddedKeepsTerminal<T>(before: Stream, added: seq<Callback<T>>, callback: Callback<T>, after: Stream)
    requires TerminalOk(before, added)
    requires callback.OnTerminal? ==> !before.flags.delivered && after.flags.delivered && after.flags.terminated
    requires callback.OnNext? ==> !before.flags.delivered
    requires !callback.OnTerminal? ==> after.flags.delivered == before.flags.delivered
    requires before.flags.terminated ==> after.flags.terminated
    ensures TerminalOk(after, added + [callback])
  {
    var more := added + [callback];
    assert forall i :: 0 <= i < |added| ==> more[i] == added[i];
    assert more[|added|] == callback;
    if before.flags.delivered {
      var i :| 0 <= i < |added| && added[i].OnTerminal?;
      assert more[i].OnTerminal?;
    }
  }

  /** A section that queues an item starts before the terminal signal; one that signals does so once. */
  ghost predicate OrderlyEffect<T>(s: Stream, effect: Effect<T>) {
    && (effect.queued.Some? && effect.queued.value.OnNext? ==> !s.flags.delivered)
    && (effect.queued.Some? && effect.queued.value.OnTerminal? ==>
         !s.flags.delivered && effect.stream.flags.delivered && effect.stream.flags.terminated)
    && ((effect.queued.None? || !effect.queued.value.OnTerminal?) ==>
         effect.stream.flags.delivered == s.flags.delivered)
    && (s.flags.terminated ==> effect.stream.flags.terminated)
    && effect.stream.flags.subscribed == s.flags.subscribed && effect.stream.flags.subscribing == s.flags.subscribing
    && (s.flags.terminated ==> effect.stream.flags.cancelled == s.flags.cancelled)
    && (effect.stream.flags.terminated && !s.flags.terminated ==>
         !effect.stream.flags.cancelled &&
           (!s.flags.subscribing && s.flags.subscribed ==> effect.stream.flags.delivered))
  }

  lemma EffectKeepsTerminal<T>(s: Sys<T>, effect: Effect<T>)
    requires TerminalOk(s.stream, s.drain.added) && OrderlyEffect(s.stream, effect)
    ensures TerminalOk(effect.stream, After(s, effect).drain.added)
  {
    if effect.queued.Some? {
      AddedKeepsTerminal(s.stream, s.drain.added, effect.queued.value, effect.stream);
    }
  }

  lemma EndRequestKeepsTerminal<T>(s: Sys<T>)
    requires TerminalInv(s) && s.lock.Requesting?
    ensures TerminalInv(EndRequestStep(s))
  {
    var effect: Effect<T> := RequestBody(s.stream, s.lock.count);
    SectionOrderlyRequest<T>(s.stream, s.lock.count);
    EffectKeepsTerminal(s, effect);
  }

  lemma SectionOrderlyRequest<T>(s: Stream, count: int)
    requires s.flags.delivered ==> s.flags.terminated
    ensures OrderlyEffect(s, RequestBody<T>(s, count))
  {
  }

  lemma EndEmitKeepsTerminal<T>(s: Sys<T>)
    requires TerminalInv(s) && s.lock.Emitting?
    ensures TerminalInv(EndEmitStep(s))
  {
    EffectKeepsTerminal(s, EmitBody(s.stream, s.lock.item));
  }

  /** Moves of the callback queue leave the stream's flags alone and queue at most a wakeup. */
  lemma ActLeavesFlags<T>(s: Sys<T>, a: nat, action: Action)
    requires CanAct(s.drain, a, action)
    ensures var t := ActStep(s, a, action);
      && t.lock == s.lock && t.finisher == s.finisher
      && t.emitted == s.emitted && t.requested == s.requested
      && t.stream == s.stream.(outstanding := t.stream.outstanding, pending := t.stream.pending)
      && t.drain.added == s.drain.added + if action.Check? && s.drain.queue != [] then [Wakeup] else []
  {
  }

  lemma ActKeepsTerminal<T>(s: Sys<T>, a: nat, action: Action)
    requires TerminalInv(s) && CanAct(s.drain, a, action)
    ensures TerminalInv(ActStep(s, a, action))
  {
    ActLeavesFlags(s, a, action);
    if action.Check? && s.drain.queue != [] {
      AddedKeepsTerminal(s.stream, s.drain.added, Wakeup, s.stream);
    }
  }

  lemma SubscribeReturnsKeepsTerminal<T>(s: Sys<T>)
    requires TerminalInv(s) && s.lock.Subscribing?
    ensures TerminalInv(Apply(s, SubscribeReturns))
  {
    var stream := s.stream.(flags := s.stream.flags.(subscribing := false));
    EffectKeepsTerminal(s.(stream := stream), Signal(stream));
  }

  lemma FinishStopKeepsTerminal<T>(s: Sys<T>)
    requires TerminalInv(s) && Enabled(s, FinishStop)
    ensures TerminalInv(Apply(s, FinishStop))
  {
    EffectKeepsTerminal(s, Signal(s.stream));
  }

  lemma LockStepKeepsTerminal<T>(s: Sys<T>, step: Step<T>)
    requires TerminalInv(s) && Enabled(s, step) && (step.Subscribe? || step.BeginRequest?)
    ensures TerminalInv(Apply(s, step))
  {
  }

  lemma StoppedKeepsTerminal<T>(s: Sys<T>, failed: bool, cancelled: bool)
    requires TerminalInv(s)
    ensures TerminalInv(Stopped(s, failed, cancelled))
  {
  }

  lemma ReceiveKeepsTerminal<T>(s: Sys<T>)
    requires TerminalInv(s) && Enabled(s, Receive)
    ensures TerminalInv(ReceiveStep(s))
  {
    if !s.toClient[0].ItemFrame? {
      StoppedKeepsTerminal(s.(toClient := s.toClient[1..]), s.toClient[0].ErrorFrame?, false);
    }
  }

  lemma WireStepKeepsStream<T>(s: Sys<T>, step: Step<T>)
    requires Enabled(s, step)
    requires step.SendCancel? || step.DropRequestFrame? || step.ServerReceive? || step.TakePermit? || step.SendItem? ||
             step.ReplaceItem? || step.SpoilQueued? || step.Close?
    ensures var t := Apply(s, step);
      && t.stream == s.stream && t.lock == s.lock && t.drain == s.drain && t.finisher == s.finisher
      && t.emitted == s.emitted && t.requested == s.requested
  {
  }

  lemma StepKeepsTerminal<T>(s: Sys<T>, step: Step<T>)
    requires TerminalInv(s) && Enabled(s, step)
    ensures TerminalInv(Apply(s, step))
  {
    match step
    case EndRequest => EndRequestKeepsTerminal(s);
    case EndEmit => EndEmitKeepsTerminal(s);
    case Act(a, action) => ActKeepsTerminal(s, a, action);
    case SubscribeReturns => SubscribeReturnsKeepsTerminal(s);
    case FinishStop => FinishStopKeepsTerminal(s);
    case Subscribe => LockStepKeepsTerminal(s, step);
    case BeginRequest(_) => LockStepKeepsTerminal(s, step);
    case Receive => ReceiveKeepsTerminal(s);
    case Stop(failed, cancel) => StoppedKeepsTerminal(s, failed, cancel);
    case _ => WireStepKeepsStream(s, step);
  }

  // ---------------------------------------------------------------------------
  // Demand

  /** Until the counts requested reach the largest `long`, demand is exactly what was
      requested and not yet taken; from then on it stands still at the largest `long`. */
  ghost predicate DemandInv<T>(s: Sys<T>) {
    if s.stream.demand < LONG_MAX then s.emitted + s.stream.demand == s.requested
    else s.stream.demand == LONG_MAX <= s.requested
  }

  lemma RequestKeepsDemand<T>(s: Sys<T>)
    requires Balanced(s.stream) && DemandInv(s) && s.emitted >= 0 && s.lock.Requesting? && s.lock.count <= LONG_MAX
    ensures DemandInv(EndRequestStep(s)) && EndRequestStep(s).emitted >= 0
  {
    if s.lock.count > 0 { RaisedDemandSaturates(s.stream.demand, s.lock.count); }
  }

  lemma EmitKeepsDemand<T>(s: Sys<T>)
    requires Balanced(s.stream) && DemandInv(s) && s.emitted >= 0 && s.lock.Emitting? && MayEmit(s.stream)
    ensures DemandInv(EndEmitStep(s)) && EndEmitStep(s).emitted >= 0
  {
  }

  lemma OthersKeepDemand<T>(s: Sys<T>, step: Step<T>)
    requires Enabled(s, step) && !step.EndRequest? && !step.EndEmit?
    ensures var t := Apply(s, step);
      t.stream.demand == s.stream.demand && t.emitted == s.emitted && t.requested == s.requested
  {
    match step
    case Act(a, action) => ActLeavesFlags(s, a, action);
    case Subscribe => ClientKeepsDemand(s, step);
    case SubscribeReturns => ClientKeepsDemand(s, step);
    case BeginRequest(_) => ClientKeepsDemand(s, step);
    case Receive => ClientKeepsDemand(s, step);
    case Stop(_, _) => ClientKeepsDemand(s, step);
    case FinishStop => ClientKeepsDemand(s, step);
    case _ => WireStepKeepsStream(s, step);
  }

  lemma ClientKeepsDemand<T>(s: Sys<T>, step: Step<T>)
    requires Enabled(s, step)
    requires step.Subscribe? || step.SubscribeReturns? || step.BeginRequest? || step.Receive? || step.Stop? ||
      step.FinishStop?
    ensures var t := Apply(s, step);
      t.stream.demand == s.stream.demand && t.emitted == s.emitted && t.requested == s.requested
  {
  }

  lemma StepKeepsDemand<T>(s: Sys<T>, step: Step<T>)
    requires CreditInv(s) && DemandInv(s) && s.emitted >= 0 && Enabled(s, step)
    ensures DemandInv(Apply(s, step)) && Apply(s, step).emitted >= 0
  {
    match step
    case EndRequest => RequestKeepsDemand(s);
    case EndEmit => EmitKeepsDemand(s);
    case _ => OthersKeepDemand(s, step);
  }

  // ---------------------------------------------------------------------------
  // The items

  function CallbackItem<T>(callback: Callback<T>): seq<T> {
    if callback.OnNext? then [callback.item] else []
  }

  function FrameItem<T>(frame: ToClient<T>): seq<T> {
    match frame
    case ItemFrame(item) => [item]
    case ErrorFrame(instead) => if instead.Some? then [instead.value] else []
    case EndFrame => []
  }

  function LockItem<T>(lock: Lock<T>): seq<T> {
    if lock.Emitting? then [lock.item] else []
  }

  function HeldItem<T>(server: Server<T>): seq<T> {
    if server.Serving? && server.held.Some? then [server.held.value] else []
  }

  /** The items queued for the subscriber so far, in queue order. */
  function Taken<T>(s: Sys<T>): seq<T> {
    FlatMap(s.drain.added, CallbackItem)
  }

  function Pipeline<T>(s: Sys<T>): seq<T> {
    Taken(s) + LockItem(s.lock) + FlatMap(s.toClient, FrameItem) + HeldItem(s.server)
  }

  ghost predicate ItemsInv<T>(s: Sys<T>) {
    && Taken(s) + LockItem(s.lock) <= s.produced
    && (!s.stream.flags.terminated ==> Pipeline(s) <= s.produced)
    && (!s.stream.flags.terminated && !s.server.Ended? ==> Pipeline(s) == s.produced)
  }

  lemma AfterTaken<T>(s: Sys<T>, effect: Effect<T>)
    ensures Taken(After(s, effect)) == Taken(s) + if effect.queued.Some? then CallbackItem(effect.queued.value) else []
  {
    if effect.queued.Some? {
      FlatMapAppend(s.drain.added, effect.queued.value, CallbackItem);
    }
  }

  /** A change of the client that queues exactly the item under its lock, if any. */
  lemma TakenKeepsItems<T>(s: Sys<T>, t: Sys<T>)
    requires ItemsInv(s)
    requires Taken(t) + LockItem(t.lock) == Taken(s) + LockItem(s.lock)
    requires t.toClient == s.toClient && t.server == s.server && t.produced == s.produced
    requires s.stream.flags.terminated ==> t.stream.flags.terminated
    ensures ItemsInv(t)
  {
  }

  lemma EffectKeepsItems<T>(s: Sys<T>, effect: Effect<T>, t: Sys<T>)
    requires ItemsInv(s) && t.drain == After(s, effect).drain && t.stream == effect.stream
    requires LockItem(s.lock) == (if effect.queued.Some? then CallbackItem(effect.queued.value) else [])
      + LockItem(t.lock)
    requires t.toClient == s.toClient && t.server == s.server && t.produced == s.produced
    requires s.stream.flags.terminated ==> effect.stream.flags.terminated
    ensures ItemsInv(t)
  {
    AfterTaken(s, effect);
    TakenKeepsItems(s, t);
  }

  lemma EndEmitKeepsItems<T>(s: Sys<T>)
    requires ItemsInv(s) && s.lock.Emitting? && MayEmit(s.stream)
    ensures ItemsInv(EndEmitStep(s))
  {
    EffectKeepsItems(s, EmitBody(s.stream, s.lock.item), EndEmitStep(s));
  }

  lemma EndRequestKeepsItems<T>(s: Sys<T>)
    requires ItemsInv(s) && s.lock.Requesting?
    ensures ItemsInv(EndRequestStep(s))
  {
    EffectKeepsItems(s, RequestBody(s.stream, s.lock.count), EndRequestStep(s));
  }

  lemma SignalKeepsItems<T>(s: Sys<T>, step: Step<T>)
    requires ItemsInv(s) && Enabled(s, step) && (step.SubscribeReturns? || step.FinishStop?)
    ensures ItemsInv(Apply(s, step))
  {
    var stream := if step.SubscribeReturns?
      then s.stream.(flags := s.stream.flags.(subscribing := false)) else s.stream;
    if step.SubscribeReturns? || !s.stream.flags.cancelled {
      EffectKeepsItems(s.(stream := stream), Signal(stream), Apply(s, step));
    }
  }

  lemma ActKeepsItems<T>(s: Sys<T>, a: nat, action: Action)
    requires ItemsInv(s) && CanAct(s.drain, a, action)
    ensures ItemsInv(ActStep(s, a, action))
  {
    ActLeavesFlags(s, a, action);
    FlatMapAppend(s.drain.added, Wakeup, CallbackItem);
    assert s.drain.added + [] == s.drain.added;
    TakenKeepsItems(s, ActStep(s, a, action));
  }

  lemma ReceiveItemKeepsItems<T>(s: Sys<T>)
    requires ItemsInv(s) && Enabled(s, Receive) && s.toClient[0].ItemFrame? && !s.stream.flags.terminated
    ensures ItemsInv(ReceiveStep(s))
  {
    var t := ReceiveStep(s);
    var rest := FlatMap(s.toClient[1..], FrameItem) + HeldItem(s.server);
    assert Pipeline(s) == Taken(s) + [s.toClient[0].item] + rest;
    assert Pipeline(t) == Taken(s) + [s.toClient[0].item] + rest;
  }

  lemma ReceiveKeepsItems<T>(s: Sys<T>)
    requires ItemsInv(s) && Enabled(s, Receive)
    ensures ItemsInv(ReceiveStep(s))
  {
    if s.toClient[0].ItemFrame? && !s.stream.flags.terminated {
      ReceiveItemKeepsItems(s);
    } else {
      assert ReceiveStep(s).stream.flags.terminated && ReceiveStep(s).lock == s.lock;
    }
  }

  /** Items only move along the pipeline, or fall off its end when the server's part ends. */
  lemma PipelineKeepsItems<T>(s: Sys<T>, t: Sys<T>, gone: seq<T>)
    requires ItemsInv(s) && t.stream == s.stream && t.drain == s.drain && t.lock == s.lock
    requires t.server.Ended? || (gone == [] && !s.server.Ended?)
    requires FlatMap(t.toClient, FrameItem) + HeldItem(t.server) + gone ==
      FlatMap(s.toClient, FrameItem) + HeldItem(s.server)
    requires t.produced == s.produced
    ensures ItemsInv(t)
  {
    var front := Taken(s) + LockItem(s.lock);
    Associates(front, FlatMap(s.toClient, FrameItem), HeldItem(s.server));
    Associates(front, FlatMap(t.toClient, FrameItem), HeldItem(t.server));
    Associates(front, FlatMap(t.toClient, FrameItem) + HeldItem(t.server), gone);
    assert Pipeline(t) + gone == Pipeline(s);
  }

  lemma SpoilKeepsItems<T>(s: Sys<T>, i: nat)
    requires ItemsInv(s) && Enabled(s, SpoilQueued(i))
    ensures ItemsInv(Apply(s, SpoilQueued(i)))
  {
    FlatMapUpdate(s.toClient, i, ErrorFrame(Some(s.toClient[i].item)), FrameItem);
    PipelineKeepsItems(s, Apply(s, SpoilQueued(i)), []);
  }

  lemma SendKeepsItems<T>(s: Sys<T>, step: Step<T>)
    requires ItemsInv(s) && Enabled(s, step) && (step.SendItem? || step.ReplaceItem?)
    ensures ItemsInv(Apply(s, step))
  {
    var frame := if step.SendItem? then ItemFrame(s.server.held.value) else ErrorFrame(s.server.held);
    FlatMapAppend(s.toClient, frame, FrameItem);
    PipelineKeepsItems(s, Apply(s, step), []);
  }

  lemma CloseKeepsItems<T>(s: Sys<T>, failed: bool)
    requires ItemsInv(s) && Enabled(s, Close(failed))
    ensures ItemsInv(Apply(s, Close(failed)))
  {
    FlatMapAppend(s.toClient, if failed then ErrorFrame(None) else EndFrame, FrameItem);
    PipelineKeepsItems(s, Apply(s, Close(failed)), HeldItem(s.server));
  }

  lemma RequestFrameKeepsItems<T>(s: Sys<T>, admit: bool)
    requires ItemsInv(s) && Enabled(s, ServerReceive(admit)) && s.toServer[0].RequestFrame? && s.server.Waiting?
    ensures ItemsInv(ServerReceiveStep(s, admit))
  {
    FlatMapAppend(s.toClient, ErrorFrame(None), FrameItem);
    PipelineKeepsItems(s, ServerReceiveStep(s, admit), []);
  }

  lemma CreditFrameKeepsItems<T>(s: Sys<T>, admit: bool)
    requires ItemsInv(s) && Enabled(s, ServerReceive(admit)) && s.toServer[0].CreditFrame?
    ensures ItemsInv(ServerReceiveStep(s, admit))
  {
    PipelineKeepsItems(s, ServerReceiveStep(s, admit), []);
  }

  lemma CancelFrameKeepsItems<T>(s: Sys<T>, admit: bool)
    requires ItemsInv(s) && Enabled(s, ServerReceive(admit)) && s.toServer[0].CancelFrame?
    ensures ItemsInv(ServerReceiveStep(s, admit))
  {
    PipelineKeepsItems(s, ServerReceiveStep(s, admit), if s.server.Serving? then HeldItem(s.server) else []);
  }

  lemma ServerReceiveKeepsItems<T>(s: Sys<T>, admit: bool)
    requires ItemsInv(s) && Enabled(s, ServerReceive(admit)) && (s.toServer[0].RequestFrame? ==> s.server.Waiting?)
    ensures ItemsInv(ServerReceiveStep(s, admit))
  {
    match s.toServer[0]
    case RequestFrame => RequestFrameKeepsItems(s, admit);
    case CreditFrame(_) => CreditFrameKeepsItems(s, admit);
    case CancelFrame => CancelFrameKeepsItems(s, admit);
  }

  lemma TakePermitKeepsItems<T>(s: Sys<T>, item: T)
    requires ItemsInv(s) && Enabled(s, TakePermit(item))
    ensures ItemsInv(Apply(s, TakePermit(item)))
  {
    assert Pipeline(Apply(s, TakePermit(item))) == Pipeline(s) + [item];
  }

  lemma StepKeepsItems<T>(s: Sys<T>, step: Step<T>)
    requires CreditInv(s) && ItemsInv(s) && Enabled(s, step)
    ensures ItemsInv(Apply(s, step))
  {
    match step
    case SubscribeReturns => SignalKeepsItems(s, step);
    case FinishStop => SignalKeepsItems(s, step);
    case EndRequest => EndRequestKeepsItems(s);
    case EndEmit => EndEmitKeepsItems(s);
    case Act(a, action) => ActKeepsItems(s, a, action);
    case Receive => ReceiveKeepsItems(s);
    case ServerReceive(admit) => ServerReceiveKeepsItems(s, admit);
    case TakePermit(item) => TakePermitKeepsItems(s, item);
    case SendItem => SendKeepsItems(s, step);
    case ReplaceItem => SendKeepsItems(s, step);
    case SpoilQueued(i) => SpoilKeepsItems(s, i);
    case Close(failed) => CloseKeepsItems(s, failed);
    case _ => TakenKeepsItems(s, Apply(s, step));
  }

  // ---------------------------------------------------------------------------
  // Runs

  ghost predicate Initial<T>(s: Sys<T>) {
    && Fresh(s.stream) && s.lock == Free && s.drain == Drain([], false, [], [], []) && s.finisher == NotStarted
    && s.toServer == [RequestFrame] && s.toClient == [] && s.server == Waiting
    && s.lost == 0 && !s.faulted && s.produced == [] && s.requested == 0 && s.emitted == 0 && !s.refused
  }

  ghost predicate Run<T>(states: seq<Sys<T>>, steps: seq<Step<T>>) {
    && |states| == |steps| + 1
    && Initial(states[0])
    && forall i :: 0 <= i < |steps| ==> Enabled(states[i], steps[i]) && states[i + 1] == Apply(states[i], steps[i])
  }

  ghost predicate SysInv<T>(s: Sys<T>) {
    && CreditInv(s) && TerminalInv(s) && DemandInv(s) && s.emitted >= 0 && ItemsInv(s) && DrainInv(s.drain)
    && ProducedInv(s)
  }

  lemma StepKeepsDrain<T>(s: Sys<T>, step: Step<T>)
    requires DrainInv(s.drain) && Enabled(s, step)
    ensures DrainInv(Apply(s, step).drain)
  {
    if step.Act? {
      ActKeepsInv(s.drain, step.agent, step.action);
    } else if step.EndRequest? {
      AfterKeepsDrain(s, RequestBody(s.stream, s.lock.count));
    } else if step.EndEmit? {
      AfterKeepsDrain(s, EmitBody(s.stream, s.lock.item));
    } else if step.SubscribeReturns? {
      AfterKeepsDrain(s, Signal(s.stream.(flags := s.stream.flags.(subscribing := false))));
    } else if step.FinishStop? {
      AfterKeepsDrain(s, Signal(s.stream));
    }
  }

  lemma AfterKeepsDrain<T>(s: Sys<T>, effect: Effect<T>)
    requires DrainInv(s.drain)
    ensures DrainInv(After(s, effect).drain)
  {
    if effect.queued.Some? {
      DispatchKeepsInv(s.drain, effect.queued.value);
    }
  }

  lemma InitialCredit<T>(s: Sys<T>)
    requires Initial(s)
    ensures CreditInv(s) && ProducedInv(s)
  {
    assert s.toServer[1..] == [];
    assert Sum(s.toServer, CreditOf) == CreditOf(RequestFrame) + Sum(s.toServer[1..], CreditOf);
  }

  lemma InitialOrder<T>(s: Sys<T>)
    requires Initial(s)
    ensures TerminalInv(s) && DemandInv(s) && s.emitted >= 0 && ItemsInv(s) && DrainInv(s.drain)
  {
  }

  lemma InitialInv<T>(s: Sys<T>)
    requires Initial(s)
    ensures SysInv(s)
  {
    InitialCredit(s);
    InitialOrder(s);
  }

  lemma {:induction false} RunInv<T>(states: seq<Sys<T>>, steps: seq<Step<T>>, i: nat)
    requires Run(states, steps) && i < |states|
    ensures SysInv(states[i])
  {
    if i == 0 {
      InitialInv(states[0]);
    } else {
      RunInv(states, steps, i - 1);
      var s, step := states[i - 1], steps[i - 1];
      StepKeepsCredit(s, step);
      StepKeepsTerminal(s, step);
      StepKeepsDemand(s, step);
      StepKeepsItems(s, step);
      StepKeepsDrain(s, step);
      StepKeepsProduced(s, step);
      assert states[i - 1 + 1] == Apply(s, step);
    }
  }

  // ---------------------------------------------------------------------------
  // What a run guarantees

  /** While the stream is live, credit on the wire, permits at the server, a permit taken
      and items on their way never exceed the client's outstanding credit, and equal it
      until an item is replaced, the request is dropped or the server's part ends. */
  lemma CreditNeverExceeded<T>(states: seq<Sys<T>>, steps: seq<Step<T>>, i: nat)
    requires Run(states, steps) && i < |states| && !states[i].stream.flags.terminated
    ensures InFlight(states[i]) <= states[i].stream.outstanding <= MAX_PENDING_CALLBACKS
    ensures !states[i].faulted ==> InFlight(states[i]) == states[i].stream.outstanding
  {
    RunInv(states, steps, i);
  }

  /** The client never refuses an item of this server for lack of credit. */
  lemma NoItemWithoutCredit<T>(states: seq<Sys<T>>, steps: seq<Step<T>>, i: nat)
    requires Run(states, steps) && i < |steps|
    ensures steps[i].EndEmit? ==> MayEmit(states[i].stream)
    ensures !states[i].refused
  {
    RunInv(states, steps, i);
  }

  /** At most 32 callbacks are pending; they are the outstanding credit plus the items not
      yet delivered; a live stream with unmet demand has all 32 slots taken; and the server
      never produces more, before or after the end of the stream, than was asked for. */
  lemma DemandBoundedAndNeverStalls<T>(states: seq<Sys<T>>, steps: seq<Step<T>>, i: nat)
    requires Run(states, steps) && i < |states|
    ensures var s := states[i];
      && s.stream.pending == s.stream.outstanding + Undelivered(s.drain) <= MAX_PENDING_CALLBACKS
      && 0 <= s.stream.outstanding <= s.stream.demand
      && (!s.stream.flags.terminated && s.stream.outstanding < s.stream.demand ==>
           s.stream.pending == MAX_PENDING_CALLBACKS)
      && |s.produced| <= s.emitted + s.stream.outstanding
      && (s.requested < LONG_MAX ==>
           && s.emitted <= s.requested && |s.produced| <= s.requested
           && s.emitted + s.stream.demand == s.requested)
  {
    RunInv(states, steps, i);
    InFlightNonNegative(states[i]);
  }

  /** Callbacks start one at a time in the order they were queued; the items among them are
      the first items the server produced, in order; the terminal signal comes at most
      once and after every item. */
  lemma SubscriberSeesPrefix<T>(states: seq<Sys<T>>, steps: seq<Step<T>>, i: nat)
    requires Run(states, steps) && i < |states|
    ensures var s := states[i];
      && s.drain.started <= s.drain.added
      && FlatMap(s.drain.started, CallbackItem) <= s.produced
      && TerminalLast(s.drain.started)
      && (forall a, b :: 0 <= a < b < |s.drain.agents| ==> !s.drain.agents[a].Running? || !s.drain.agents[b].Running?)
  {
    RunInv(states, steps, i);
    var d := states[i].drain;
    FlatMapConcat(d.started, d.queue, CallbackItem);
    assert FlatMap(d.started, CallbackItem) <= Taken(states[i]);
    assert forall k :: 0 <= k < |d.started| ==> d.started[k] == d.added[k];
    assert forall a, b :: 0 <= a < b < |d.agents| ==> !Holds(d.agents[a]) || !Holds(d.agents[b]);
  }

  /** When nothing is left to do on the client, every queued callback has been started, and
      a stream that ended without cancellation has signalled its subscriber, whether it
      ended before, during or after `subscribe`. */
  lemma QuiescentStreamHasSignalled<T>(states: seq<Sys<T>>, steps: seq<Step<T>>, i: nat)
    requires Run(states, steps) && i < |states|
    requires states[i].lock.Free? && states[i].finisher.Through? && !states[i].stream.flags.cancelled
    requires states[i].stream.flags.subscribed
    requires forall a :: 0 <= a < |states[i].drain.agents| ==> states[i].drain.agents[a].Finished?
    ensures states[i].drain.started == states[i].drain.added
    ensures exists k :: 0 <= k < |states[i].drain.started| && states[i].drain.started[k].OnTerminal?
  {
    RunInv(states, steps, i);
    NothingStranded(states[i].drain);
  }
}
