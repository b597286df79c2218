/** One server stream end to end: the client's stream object, the server's permit counter
    and the frames between them, under every interleaving (MoonLightServerStream.java;
    crates/moonlight-bridge-server/src/lib.rs, the STREAM_CREDIT arm of `serve_connection`
    and the loop of `dispatch_stream`).

    The frames of one stream travel in order in each direction. `terminated` is written
    without the `callbacks` lock, so `emit` and `request` are two steps each: the look at
    `terminated` and the rest, with the lock held in between. */
module StreamRuns {
  import opened Common
  import opened Callbacks
  import opened ServerStream

  /** Who holds the `callbacks` lock across steps. A request made inside `onSubscribe` is nested. */
  datatype Lock<T> = Free | Subscribing | Emitting(item: T) | Requesting(count: int, nested: bool)

  datatype ToServer = RequestFrame | CreditFrame(count: int) | CancelFrame

  /** An ERROR frame that took the place of an item remembers the item. */
  datatype ToClient<T> = ItemFrame(item: T) | EndFrame | ErrorFrame(instead: Option<T>)

  /** `held`: an item whose permit is taken and which is not queued yet. */
  datatype Server<T> = Waiting | Serving(permits: int, held: Option<T>) | Ended

  datatype Finisher = NotStarted | Signalling | Through

  datatype Sys<T> = Sys(
    stream: Stream, lock: Lock<T>, drain: Drain<T>, finisher: Finisher,
    toServer: seq<ToServer>, toClient: seq<ToClient<T>>, server: Server<T>,
    // History: credit that no longer leads to an item, whether anything happened that loses
    // credit, the items produced under a permit, all counts requested, items taken by emit,
    // and whether emit ever refused an item.
    lost: int, faulted: bool, produced: seq<T>, requested: int, emitted: int, refused: bool)

  datatype Step<T> =
    // the client
    | Subscribe
    | SubscribeReturns
    | BeginRequest(count: int)
    | EndRequest
    | Receive
    | EndEmit
    | Stop(failed: bool, cancel: bool)
    | FinishStop
    | SendCancel
    | Act(agent: nat, action: Action)
    | DropRequestFrame
    // the server
    | ServerReceive(admit: bool)
    | TakePermit(item: T)
    | SendItem
    | ReplaceItem
    | SpoilQueued(index: nat)
    | Close(failed: bool)

  /** tokio's `Semaphore::MAX_PERMITS` on a 64-bit platform. */
  const MAX_PERMITS: int := 0x1FFF_FFFF_FFFF_FFFF

  predicate LockFree<T>(s: Sys<T>) {
    s.lock.Free? || s.lock.Subscribing?
  }

  predicate Enabled<T>(s: Sys<T>, step: Step<T>) {
    match step
    case Subscribe => s.lock.Free? && !s.stream.flags.subscribed
    case SubscribeReturns => s.lock.Subscribing?
    case BeginRequest(count) =>
      LockFree(s) && s.stream.flags.subscribed && !s.stream.flags.terminated && count <= LONG_MAX
    case EndRequest => s.lock.Requesting?
    case Receive => s.toClient != [] && (s.toClient[0].ItemFrame? ==> s.lock.Free?)
    case EndEmit => s.lock.Emitting?
    case Stop(_, _) => !s.stream.flags.terminated
    case FinishStop => s.finisher.Signalling? && (s.stream.flags.cancelled || LockFree(s))
    case SendCancel => true
    case Act(a, action) =>
      CanAct(s.drain, a, action) && (action.Return? && s.drain.agents[a].callback.OnNext? ==> LockFree(s))
    case DropRequestFrame => s.toServer != [] && s.toServer[0].RequestFrame?
    case ServerReceive(_) => s.toServer != []
    case TakePermit(_) => s.server.Serving? && s.server.permits > 0 && s.server.held.None?
    case SendItem => s.server.Serving? && s.server.held.Some?
    case ReplaceItem => s.server.Serving? && s.server.held.Some?
    case SpoilQueued(i) => i < |s.toClient| && s.toClient[i].ItemFrame?
    case Close(_) => s.server.Serving?
  }

  // ---------------------------------------------------------------------------
  // Steps

  /** The fields, the queue and the wire after a section of the stream object. */
  function After<T>(s: Sys<T>, effect: Effect<T>): Sys<T> {
    s.(stream := effect.stream,
       drain := if effect.queued.Some? then Dispatch(s.drain, effect.queued.value) else s.drain,
       toServer := s.toServer
         + (if effect.credit > 0 then [CreditFrame(effect.credit)] else [])
         + (if effect.cancel then [CancelFrame] else []))
  }

  function Stopped<T>(s: Sys<T>, failed: bool, cancelled: bool): Sys<T> {
    if s.stream.flags.terminated then s
    else s.(stream := Terminate(s.stream, failed, cancelled), finisher := Signalling)
  }

  /** A section that may itself have ended the stream leaves nothing for a finisher. */
  function Settled<T>(s: Sys<T>): Sys<T> {
    if s.stream.flags.terminated && s.finisher.NotStarted? then s.(finisher := Through) else s
  }

  function EndRequestStep<T>(s: Sys<T>): Sys<T>
    requires s.lock.Requesting?
  {
    var t := Settled(After(s, RequestBody(s.stream, s.lock.count)));
    t.(lock := if s.lock.nested then Subscribing else Free,
       requested := s.requested + if s.lock.count > 0 then s.lock.count else 0)
  }

  function EndEmitStep<T>(s: Sys<T>): Sys<T>
    requires s.lock.Emitting?
  {
    var t := Settled(After(s, EmitBody(s.stream, s.lock.item)));
    t.(lock := Free,
       emitted := s.emitted + if MayEmit(s.stream) then 1 else 0,
       refused := s.refused || !MayEmit(s.stream))
  }

  function ReceiveStep<T>(s: Sys<T>): Sys<T>
    requires s.toClient != []
  {
    var t := s.(toClient := s.toClient[1..]);
    match s.toClient[0]
    case ItemFrame(item) => if s.stream.flags.terminated then t else t.(lock := Emitting(item))
    case EndFrame => Stopped(t, false, false)
    case ErrorFrame(_) => Stopped(t, true, false)
  }

  function HeldCount<T>(server: Server<T>): int {
    match server
    case Serving(permits, held) => permits + if held.Some? then 1 else 0
    case _ => 0
  }

  function ServerReceiveStep<T>(s: Sys<T>, admit: bool): Sys<T>
    requires s.toServer != []
  {
    var t := s.(toServer := s.toServer[1..]);
    match s.toServer[0]
    case RequestFrame =>
      if admit then t.(server := Serving(0, None))
      else t.(server := Ended, toClient := s.toClient + [ErrorFrame(None)], faulted := true)
    case CreditFrame(count) =>
      if s.server.Serving? then
        var added := Minimum(count, MAX_PERMITS - s.server.permits);
        t.(server := s.server.(permits := s.server.permits + added), lost := s.lost + count - added,
           faulted := s.faulted || added < count)
      else t.(lost := s.lost + count)
    case CancelFrame =>
      if s.server.Serving? then t.(server := Ended, lost := s.lost + HeldCount(s.server), faulted := true) else t
  }

  function ActStep<T>(s: Sys<T>, a: nat, action: Action): Sys<T>
    requires CanAct(s.drain, a, action)
  {
    var t := s.(drain := Callbacks.Act(s.drain, a, action));
    if action.Return? && s.drain.agents[a].callback.OnNext? then After(t, Delivered(s.stream)) else t
  }

  function Apply<T>(s: Sys<T>, step: Step<T>): Sys<T>
    requires Enabled(s, step)
  {
    match step
    case Subscribe =>
      s.(stream := s.stream.(flags := s.stream.flags.(subscribed := true, subscribing := true)), lock := Subscribing)
    case SubscribeReturns =>
      After(s, Signal(s.stream.(flags := s.stream.flags.(subscribing := false)))).(lock := Free)
    case BeginRequest(count) => s.(lock := Requesting(count, s.lock.Subscribing?))
    case EndRequest => EndRequestStep(s)
    case Receive => ReceiveStep(s)
    case EndEmit => EndEmitStep(s)
    case Stop(failed, cancel) => Stopped(s, failed, cancel)
    case FinishStop =>
      (if s.stream.flags.cancelled then s.(toServer := s.toServer + [CancelFrame]) else After(s, Signal(s.stream)))
        .(finisher := Through)
    case SendCancel => s.(toServer := s.toServer + [CancelFrame])
    case Act(a, action) => ActStep(s, a, action)
    case DropRequestFrame => s.(toServer := s.toServer[1..], faulted := true)
    case ServerReceive(admit) => ServerReceiveStep(s, admit)
    case TakePermit(item) =>
      s.(server := Serving(s.server.permits - 1, Some(item)), produced := s.produced + [item])
    case SendItem =>
      s.(server := s.server.(held := None), toClient := s.toClient + [ItemFrame(s.server.held.value)])
    case ReplaceItem =>
      s.(server := s.server.(held := None), toClient := s.toClient + [ErrorFrame(s.server.held)],
         lost := s.lost + 1, faulted := true)
    case SpoilQueued(i) =>
      s.(toClient := s.toClient[i := ErrorFrame(Some(s.toClient[i].item))], lost := s.lost + 1, faulted := true)
    case Close(failed) =>
      s.(server := Ended, toClient := s.toClient + [if failed then ErrorFrame(None) else EndFrame],
         lost := s.lost + HeldCount(s.server), faulted := true)
  }

  // ---------------------------------------------------------------------------
  // Credit

  function CreditOf(frame: ToServer): int {
    if frame.CreditFrame? then frame.count else 0
  }

  function ItemOf<T>(frame: ToClient<T>): int {
    if frame.ItemFrame? then 1 else 0
  }

  function CallbackOf<T>(callback: Callback<T>): int {
    if callback.OnNext? then 1 else 0
  }

  function AgentOf<T>(agent: Agent<T>): int {
    if agent.Running? then CallbackOf(agent.callback) else 0
  }

  /** Items queued for the subscriber or inside `onNext`. */
  function Undelivered<T>(d: Drain<T>): int {
    Sum(d.queue, CallbackOf) + Sum(d.agents, AgentOf)
  }

  function EmittingCount<T>(s: Sys<T>): int {
    if s.lock.Emitting? then 1 else 0
  }

  /** Everything the client's outstanding credit can still turn into. */
  function InFlight<T>(s: Sys<T>): int {
    Sum(s.toServer, CreditOf) + HeldCount(s.server) + Sum(s.toClient, ItemOf) + EmittingCount(s)
  }

  ghost predicate FramesOk(frames: seq<ToServer>) {
    && (forall i :: 0 <= i < |frames| && frames[i].CreditFrame? ==> frames[i].count > 0)
    && (forall i :: 0 < i < |frames| ==> !frames[i].RequestFrame?)
  }

  ghost predicate WireOk<T>(s: Sys<T>) {
    && FramesOk(s.toServer)
    && (s.toServer != [] && s.toServer[0].RequestFrame? ==> s.server.Waiting?)
    && (s.server.Waiting? && !s.faulted ==> s.toServer != [] && s.toServer[0].RequestFrame?)
    && (s.server.Serving? ==> 0 <= s.server.permits <= MAX_PERMITS)
    && (s.server.Ended? ==> s.faulted)
  }

  ghost predicate AccountOk<T>(s: Sys<T>) {
    && Balanced(s.stream)
    && s.stream.pending == s.stream.outstanding + Undelivered(s.drain)
  }

  /** Conservation of credit: while the stream is live, outstanding credit is exactly what is
      in flight plus what was lost, and nothing is lost before a fault. */
  ghost predicate Conserved<T>(s: Sys<T>) {
    && (!s.stream.flags.terminated ==> s.stream.outstanding == InFlight(s) + s.lost)
    && s.lost >= 0 && (!s.faulted ==> s.lost == 0)
  }

  ghost predicate LockOk<T>(s: Sys<T>) {
    && (s.stream.demand > 0 ==> s.stream.flags.subscribed)
    && (s.lock.Requesting? ==> s.stream.flags.subscribed && s.lock.count <= LONG_MAX)
    && (s.lock.Emitting? ==> MayEmit(s.stream))
    && !s.refused
  }

  ghost predicate CreditInv<T>(s: Sys<T>) {
    WireOk(s) && AccountOk(s) && Conserved(s) && LockOk(s)
  }

  lemma InFlightNonNegative<T>(s: Sys<T>)
    requires WireOk(s)
    ensures Sum(s.toServer, CreditOf) >= 0 && HeldCount(s.server) >= 0 && Sum(s.toClient, ItemOf) >= 0
    ensures s.toClient != [] && s.toClient[0].ItemFrame? ==> Sum(s.toClient, ItemOf) >= 1
  {
    forall f | f in s.toServer ensures CreditOf(f) >= 0 {
      var i :| 0 <= i < |s.toServer| && s.toServer[i] == f;
    }
    SumBounds(s.toServer, CreditOf);
    SumBounds(s.toClient, ItemOf);
  }

  // Effects of a client section

  function SentBy<T>(effect: Effect<T>): seq<ToServer> {
    (if effect.credit > 0 then [CreditFrame(effect.credit)] else []) + (if effect.cancel then [CancelFrame] else [])
  }

  lemma SentByOk<T>(frames: seq<ToServer>, effect: Effect<T>)
    requires FramesOk(frames) && effect.credit >= 0
    ensures FramesOk(frames + SentBy(effect))
    ensures Sum(frames + SentBy(effect), CreditOf) == Sum(frames, CreditOf) + effect.credit
  {
    SumConcat(frames, SentBy(effect), CreditOf);
    var credit := if effect.credit > 0 then [CreditFrame(effect.credit)] else [];
    var cancel := if effect.cancel then [CancelFrame] else [];
    SumConcat(credit, cancel, CreditOf);
  }

  function QueuedBy<T>(effect: Effect<T>): int {
    if effect.queued.Some? then CallbackOf(effect.queued.value) else 0
  }

  lemma AfterUndelivered<T>(s: Sys<T>, effect: Effect<T>)
    ensures Undelivered(After(s, effect).drain) == Undelivered(s.drain) + QueuedBy(effect)
  {
    if effect.queued.Some? {
      SumAppend(s.drain.queue, effect.queued.value, CallbackOf);
      SumAppend(s.drain.agents, AtFlag, AgentOf);
    }
  }

  /** What a section of the stream object must do to keep the accounts: outstanding credit
      and callback slots grow by the credit it sends, and an item it takes is queued. */
  ghost predicate FairEffect<T>(s: Stream, effect: Effect<T>, taken: int) {
    && Balanced(effect.stream) && effect.credit >= 0
    && effect.stream.outstanding == s.outstanding + effect.credit - taken
    && effect.stream.pending == s.pending + effect.credit
    && QueuedBy(effect) == taken
    && (s.flags.terminated ==> effect.stream.flags.terminated)
    && effect.stream.flags.subscribed == s.flags.subscribed
    && (effect.stream.demand > 0 ==> effect.stream.flags.subscribed)
  }

  lemma SectionKeepsCredit<T>(s: Sys<T>, effect: Effect<T>, lock: Lock<T>)
    requires WireOk(s) && Conserved(s) && s.stream.pending == s.stream.outstanding + Undelivered(s.drain)
    requires FairEffect(s.stream, effect, EmittingCount(s)) && !s.refused
    requires lock.Free? || lock.Subscribing?
    ensures CreditInv(After(s, effect).(lock := lock))
  {
    SentByOk(s.toServer, effect);
    AfterUndelivered(s, effect);
    assert After(s, effect).toServer == s.toServer + SentBy(effect);
  }

  /** The accounts do not depend on the finisher or on the counts of the history. */
  lemma SettledKeepsCredit<T>(s: Sys<T>, effect: Effect<T>, t: Sys<T>)
    requires WireOk(s) && Conserved(s) && s.stream.pending == s.stream.outstanding + Undelivered(s.drain)
    requires FairEffect(s.stream, effect, EmittingCount(s)) && !s.refused
    requires t.lock.Free? || t.lock.Subscribing?
    requires t == After(s, effect).(lock := t.lock, finisher := t.finisher, requested := t.requested,
                                    emitted := t.emitted)
    ensures CreditInv(t)
  {
    SectionKeepsCredit(s, effect, t.lock);
  }

  /** Granting sends as much credit as it books, and leaves none to grant. */
  lemma GrantIsFair<T>(s: Stream)
    requires 0 <= s.outstanding <= s.demand <= LONG_MAX && s.outstanding <= s.pending <= MAX_PENDING_CALLBACKS
    requires s.demand > 0 ==> s.flags.subscribed
    ensures FairEffect(s, Grant<T>(s), 0)
  {
    GrantBalances<T>(s);
  }

  /** `request` keeps the books and the balance. */
  lemma RequestIsFair<T>(s: Stream, count: int)
    requires Balanced(s) && count <= LONG_MAX && s.flags.subscribed
    ensures FairEffect(s, RequestBody<T>(s, count), 0)
  {
    if count > 0 {
      RaisedDemandSaturates(s.demand, count);
      GrantIsFair<T>(s.(demand := RaisedDemand(s.demand, count)));
    }
  }

  /** So does `emit`, which takes one item. */
  lemma EmitIsFair<T>(s: Stream, item: T)
    requires Balanced(s) && MayEmit(s)
    ensures FairEffect(s, EmitBody(s, item), 1)
  {
  }

  lemma ReceiveKeepsCredit<T>(s: Sys<T>)
    requires CreditInv(s) && Enabled(s, Receive)
    ensures CreditInv(ReceiveStep(s))
  {
    if s.toClient[0].ItemFrame? {
      ReceiveItemKeepsCredit(s);
    } else {
      StoppedKeepsCredit(s.(toClient := s.toClient[1..]), s.toClient[0].ErrorFrame?, false);
    }
  }

  lemma ReceiveItemKeepsCredit<T>(s: Sys<T>)
    requires CreditInv(s) && Enabled(s, Receive) && s.toClient[0].ItemFrame?
    ensures CreditInv(ReceiveStep(s))
  {
    InFlightNonNegative(s);
  }

  lemma StoppedKeepsCredit<T>(s: Sys<T>, failed: bool, cancelled: bool)
    requires CreditInv(s)
    ensures CreditInv(Stopped(s, failed, cancelled))
  {
  }

  lemma EndEmitKeepsCredit<T>(s: Sys<T>)
    requires CreditInv(s) && Enabled(s, EndEmit)
    ensures CreditInv(EndEmitStep(s))
  {
    EmitIsFair(s.stream, s.lock.item);
    SettledKeepsCredit(s, EmitBody(s.stream, s.lock.item), EndEmitStep(s));
  }

  lemma EndRequestKeepsCredit<T>(s: Sys<T>)
    requires CreditInv(s) && Enabled(s, EndRequest)
    ensures CreditInv(EndRequestStep(s))
  {
    RequestIsFair<T>(s.stream, s.lock.count);
    SettledKeepsCredit(s, RequestBody(s.stream, s.lock.count), EndRequestStep(s));
  }

  lemma SignalKeepsCredit<T>(s: Sys<T>, lock: Lock<T>)
    requires CreditInv(s) && LockFree(s) && (lock.Free? || lock.Subscribing?)
    ensures CreditInv(After(s, Signal(s.stream)).(lock := lock))
  {
    SectionKeepsCredit(s, Signal(s.stream), lock);
  }

  lemma ActSums<T>(d: Drain<T>, a: nat, action: Action)
    requires CanAct(d, a, action)
    ensures Undelivered(Callbacks.Act(d, a, action)) ==
            Undelivered(d) - if action.Return? then CallbackOf(d.agents[a].callback) else 0
  {
    var e := Callbacks.Act(d, a, action);
    SumUpdate(d.agents, a, e.agents[a], AgentOf);
    if action.Check? && d.queue != [] {
      SumAppend(d.queue, Wakeup, CallbackOf);
    }
  }

  lemma UndeliveredCounts<T>(d: Drain<T>, a: nat)
    requires a < |d.agents|
    ensures 0 <= AgentOf(d.agents[a]) <= Undelivered(d)
  {
    SumBounds(d.queue, CallbackOf);
    SumBounds(d.agents, AgentOf);
  }

  /** `pendingCallbacks--` at the end of an `onNext`, before credit is granted again. */
  function Lowered<T>(s: Sys<T>, a: nat): Sys<T>
    requires CanAct(s.drain, a, Return)
  {
    s.(drain := Callbacks.Act(s.drain, a, Return), stream := s.stream.(pending := s.stream.pending - 1))
  }

  lemma LoweredKeepsAccounts<T>(s: Sys<T>, a: nat)
    requires CreditInv(s) && CanAct(s.drain, a, Return) && s.drain.agents[a].callback.OnNext?
    ensures var t := Lowered(s, a);
      && WireOk(t) && Conserved(t) && t.stream.pending == t.stream.outstanding + Undelivered(t.drain)
      && FairEffect(t.stream, Grant<T>(t.stream), 0)
  {
    ActSums(s.drain, a, Return);
    UndeliveredCounts(s.drain, a);
    GrantIsFair<T>(Lowered(s, a).stream);
  }

  lemma ReturnKeepsCredit<T>(s: Sys<T>, a: nat)
    requires CreditInv(s) && Enabled(s, Step.Act(a, Return)) && s.drain.agents[a].callback.OnNext?
    ensures CreditInv(ActStep(s, a, Return))
  {
    LoweredKeepsAccounts(s, a);
    SettledKeepsCredit(Lowered(s, a), Grant(Lowered(s, a).stream), ActStep(s, a, Return));
  }

  lemma ActKeepsCredit<T>(s: Sys<T>, a: nat, action: Action)
    requires CreditInv(s) && Enabled(s, Step.Act(a, action))
    ensures CreditInv(ActStep(s, a, action))
  {
    if action.Return? && s.drain.agents[a].callback.OnNext? {
      ReturnKeepsCredit(s, a);
    } else {
      ActSums(s.drain, a, action);
    }
  }

  lemma ServerReceiveKeepsCredit<T>(s: Sys<T>, admit: bool)
    requires CreditInv(s) && Enabled(s, ServerReceive(admit))
    ensures CreditInv(ServerReceiveStep(s, admit))
  {
    match s.toServer[0]
    case RequestFrame => RequestArrives(s, admit);
    case CreditFrame(_) => CreditArrives(s, admit);
    case CancelFrame => CancelArrives(s, admit);
  }

  lemma RequestArrives<T>(s: Sys<T>, admit: bool)
    requires CreditInv(s) && s.toServer != [] && s.toServer[0].RequestFrame?
    ensures CreditInv(ServerReceiveStep(s, admit))
  {
    SumAppend(s.toClient, ErrorFrame(None), ItemOf);
  }

  lemma CreditArrives<T>(s: Sys<T>, admit: bool)
    requires CreditInv(s) && s.toServer != [] && s.toServer[0].CreditFrame?
    ensures CreditInv(ServerReceiveStep(s, admit))
  {
  }

  lemma CancelArrives<T>(s: Sys<T>, admit: bool)
    requires CreditInv(s) && s.toServer != [] && s.toServer[0].CancelFrame?
    ensures CreditInv(ServerReceiveStep(s, admit))
  {
  }

  lemma SpoilKeepsCredit<T>(s: Sys<T>, i: nat)
    requires CreditInv(s) && Enabled(s, SpoilQueued(i))
    ensures CreditInv(Apply(s, SpoilQueued(i)))
  {
    SumUpdate(s.toClient, i, ErrorFrame(Some(s.toClient[i].item)), ItemOf);
  }

  lemma SendKeepsCredit<T>(s: Sys<T>, step: Step<T>)
    requires CreditInv(s) && Enabled(s, step) && (step.SendItem? || step.ReplaceItem?)
    ensures CreditInv(Apply(s, step))
  {
    SumAppend(s.toClient, ItemFrame(s.server.held.value), ItemOf);
    SumAppend(s.toClient, ErrorFrame(s.server.held), ItemOf);
  }

  lemma CloseKeepsCredit<T>(s: Sys<T>, failed: bool)
    requires CreditInv(s) && Enabled(s, Close(failed))
    ensures CreditInv(Apply(s, Close(failed)))
  {
    SumAppend(s.toClient, if failed then ErrorFrame(None) else EndFrame, ItemOf);
  }

  lemma FinishKeepsCredit<T>(s: Sys<T>)
    requires CreditInv(s) && Enabled(s, FinishStop)
    ensures CreditInv(Apply(s, FinishStop))
  {
    if s.stream.flags.cancelled {
      SendCancelKeepsCredit(s);
    } else {
      SignalKeepsCredit(s, s.lock);
    }
  }

  lemma SendCancelKeepsCredit<T>(s: Sys<T>)
    requires CreditInv(s)
    ensures CreditInv(s.(toServer := s.toServer + [CancelFrame]))
  {
    SumAppend(s.toServer, CancelFrame, CreditOf);
  }

  lemma SubscribeReturnsKeepsCredit<T>(s: Sys<T>)
    requires CreditInv(s) && Enabled(s, SubscribeReturns)
    ensures CreditInv(Apply(s, SubscribeReturns))
  {
    SignalKeepsCredit(s.(stream := s.stream.(flags := s.stream.flags.(subscribing := false))), Free);
  }

  /** Steps that touch neither credit nor items. */
  lemma OthersKeepCredit<T>(s: Sys<T>, step: Step<T>)
    requires CreditInv(s) && Enabled(s, step)
    requires step.Subscribe? || step.BeginRequest? || step.TakePermit? || step.DropRequestFrame?
    ensures CreditInv(Apply(s, step))
  {
  }

  predicate ServerStep<T>(step: Step<T>) {
    step.ServerReceive? || step.SendItem? || step.ReplaceItem? || step.SpoilQueued? || step.Close?
  }

  lemma ServerKeepsCredit<T>(s: Sys<T>, step: Step<T>)
    requires CreditInv(s) && Enabled(s, step) && ServerStep(step)
    ensures CreditInv(Apply(s, step))
  {
    if step.ServerReceive? {
      ServerReceiveKeepsCredit(s, step.admit);
    } else if step.SpoilQueued? {
      SpoilKeepsCredit(s, step.index);
    } else if step.Close? {
      CloseKeepsCredit(s, step.failed);
    } else {
      SendKeepsCredit(s, step);
    }
  }

  lemma SectionsKeepCredit<T>(s: Sys<T>, step: Step<T>)
    requires CreditInv(s) && Enabled(s, step)
    requires step.Receive? || step.EndEmit? || step.EndRequest? || step.Act?
    ensures CreditInv(Apply(s, step))
  {
    if step.Receive? {
      ReceiveKeepsCredit(s);
    } else if step.EndEmit? {
      EndEmitKeepsCredit(s);
    } else if step.EndRequest? {
      EndRequestKeepsCredit(s);
    } else {
      ActKeepsCredit(s, step.agent, step.action);
    }
  }

  lemma StepKeepsCredit<T>(s: Sys<T>, step: Step<T>)
    requires CreditInv(s) && Enabled(s, step)
    ensures CreditInv(Apply(s, step))
  {
    if ServerStep(step) {
      ServerKeepsCredit(s, step);
    } else if step.Receive? || step.EndEmit? || step.EndRequest? || step.Act? {
      SectionsKeepCredit(s, step);
    } else if step.Stop? {
      StoppedKeepsCredit(s, step.failed, step.cancel);
    } else if step.FinishStop? {
      FinishKeepsCredit(s);
    } else if step.SendCancel? {
      SendCancelKeepsCredit(s);
    } else if step.SubscribeReturns? {
      SubscribeReturnsKeepsCredit(s);
    } else {
      OthersKeepCredit(s, step);
    }
  }

  // ---------------------------------------------------------------------------
  // What the server produces

  function PermitsOf<T>(server: Server<T>): int {
    if server.Serving? then server.permits else 0
  }

  /** Items produced, permits and credit on its way never exceed all the credit ever granted:
      what `emit` has taken and what is outstanding. Also after the stream has ended. */
  ghost predicate ProducedInv<T>(s: Sys<T>) {
    |s.produced| + PermitsOf(s.server) + Sum(s.toServer, CreditOf) <= s.emitted + s.stream.outstanding
  }

  /** Credit a section books as granted is credit it sends. */
  lemma SectionKeepsProduced<T>(s: Sys<T>, effect: Effect<T>, taken: int, t: Sys<T>)
    requires FramesOk(s.toServer) && ProducedInv(s) && FairEffect(s.stream, effect, taken)
    requires t.toServer == After(s, effect).toServer && t.stream == effect.stream
    requires t.server == s.server && t.produced == s.produced && t.emitted == s.emitted + taken
    ensures ProducedInv(t)
  {
    SentByOk(s.toServer, effect);
    assert t.toServer == s.toServer + SentBy(effect);
  }

  lemma EmitKeepsProduced<T>(s: Sys<T>)
    requires CreditInv(s) && ProducedInv(s) && Enabled(s, EndEmit)
    ensures ProducedInv(EndEmitStep(s))
  {
    EmitIsFair(s.stream, s.lock.item);
    SectionKeepsProduced(s, EmitBody(s.stream, s.lock.item), 1, EndEmitStep(s));
  }

  lemma RequestKeepsProduced<T>(s: Sys<T>)
    requires CreditInv(s) && ProducedInv(s) && Enabled(s, EndRequest)
    ensures ProducedInv(EndRequestStep(s))
  {
    RequestIsFair<T>(s.stream, s.lock.count);
    SectionKeepsProduced(s, RequestBody(s.stream, s.lock.count), 0, EndRequestStep(s));
  }

  lemma ReturnKeepsProduced<T>(s: Sys<T>, a: nat)
    requires CreditInv(s) && ProducedInv(s) && Enabled(s, Step.Act(a, Return)) && s.drain.agents[a].callback.OnNext?
    ensures ProducedInv(ActStep(s, a, Return))
  {
    LoweredKeepsAccounts(s, a);
    SectionKeepsProduced(Lowered(s, a), Grant<T>(Lowered(s, a).stream), 0, ActStep(s, a, Return));
  }

  lemma ServerReceiveKeepsProduced<T>(s: Sys<T>, admit: bool)
    requires WireOk(s) && ProducedInv(s) && Enabled(s, ServerReceive(admit))
    ensures ProducedInv(ServerReceiveStep(s, admit))
  {
    assert Sum(s.toServer, CreditOf) == CreditOf(s.toServer[0]) + Sum(s.toServer[1..], CreditOf);
  }

  /** A terminal signal moves no credit. */
  lemma SignalKeepsProduced<T>(s: Sys<T>, step: Step<T>)
    requires ProducedInv(s) && Enabled(s, step) && (step.SubscribeReturns? || step.FinishStop? || step.SendCancel?)
    ensures ProducedInv(Apply(s, step))
  {
    SumAppend(s.toServer, CancelFrame, CreditOf);
    assert s.toServer + [] + [] == s.toServer;
  }

  lemma OthersKeepProduced<T>(s: Sys<T>, step: Step<T>)
    requires WireOk(s) && ProducedInv(s) && Enabled(s, step)
    requires !step.EndEmit? && !step.EndRequest? && !step.ServerReceive?
    requires !step.SubscribeReturns? && !step.FinishStop? && !step.SendCancel?
    requires step.Act? && step.action.Return? ==> !s.drain.agents[step.agent].callback.OnNext?
    ensures ProducedInv(Apply(s, step))
  {
  }

  lemma StepKeepsProduced<T>(s: Sys<T>, step: Step<T>)
    requires CreditInv(s) && ProducedInv(s) && Enabled(s, step)
    ensures ProducedInv(Apply(s, step))
  {
    if step.EndEmit? {
      EmitKeepsProduced(s);
    } else if step.EndRequest? {
      RequestKeepsProduced(s);
    } else if step.ServerReceive? {
      ServerReceiveKeepsProduced(s, step.admit);
    } else if step.SubscribeReturns? || step.FinishStop? || step.SendCancel? {
      SignalKeepsProduced(s, step);
    } else if step.Act? && step.action.Return? && s.drain.agents[step.agent].callback.OnNext? {
      ReturnKeepsProduced(s, step.agent);
    } else {
      OthersKeepProduced(s, step);
    }
  }
}
