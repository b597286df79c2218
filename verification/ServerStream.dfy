/** The client half of a credit-controlled server stream (MoonLightServerStream.java).

    The sections that hold the `callbacks` lock are functions from the stream's fields to an
    effect: the new fields, the callback queued, the credit put on the wire and whether the
    call is cancelled remotely. The class updates the same fields in place. */
module ServerStream {
  import opened Common
  import opened Callbacks

  const LONG_MAX: int := 0x7FFF_FFFF_FFFF_FFFF
  const MAX_PENDING_CALLBACKS: int := 32

  datatype Flags = Flags(subscribed: bool, subscribing: bool, terminated: bool, cancelled: bool, failed: bool,
                         delivered: bool)

  datatype Stream = Stream(demand: int, outstanding: int, pending: int, flags: Flags)

  datatype Effect<T> = Effect(stream: Stream, queued: Option<Callback<T>>, credit: int, cancel: bool)

  /** A stream nobody has subscribed to. */
  predicate Fresh(s: Stream) {
    && s.demand == 0 && s.outstanding == 0 && s.pending == 0
    && !s.flags.subscribed && !s.flags.subscribing && !s.flags.terminated && !s.flags.cancelled && !s.flags.failed
    && !s.flags.delivered
  }

  // ---------------------------------------------------------------------------
  // The sections

  function Minimum(a: int, b: int): int {
    if a <= b then a else b
  }

  /** Java `long` addition of two non-negative values. */
  function LongSum(a: int, b: int): int {
    if a + b > LONG_MAX then a + b - 0x1_0000_0000_0000_0000 else a + b
  }

  function RaisedDemand(current: int, count: int): int {
    if LongSum(current, count) < 0 then LONG_MAX else LongSum(current, count)
  }

  function Credit(s: Stream): int {
    if s.flags.terminated || s.demand - s.outstanding <= 0 then 0
    else if Minimum(s.demand - s.outstanding, MAX_PENDING_CALLBACKS - s.pending) <= 0 then 0
    else Minimum(s.demand - s.outstanding, MAX_PENDING_CALLBACKS - s.pending)
  }

  function Grant<T>(s: Stream): Effect<T> {
    Effect(s.(outstanding := s.outstanding + Credit(s), pending := s.pending + Credit(s)), None, Credit(s), false)
  }

  function Terminate(s: Stream, failed: bool, cancelled: bool): Stream {
    if s.flags.terminated then s
    else s.(flags := s.flags.(terminated := true, failed := failed, cancelled := cancelled))
  }

  predicate MustSignal(s: Stream) {
    s.flags.terminated && !s.flags.subscribing && !s.flags.delivered && !s.flags.cancelled && s.flags.subscribed
  }

  function Signal<T>(s: Stream): Effect<T> {
    if MustSignal(s) then Effect(s.(flags := s.flags.(delivered := true)), Some(OnTerminal(s.flags.failed)), 0, false)
    else Effect(s, None, 0, false)
  }

  /** `finish` when no other section is running. */
  function FinishNow<T>(s: Stream, failed: bool, cancel: bool): Effect<T> {
    if s.flags.terminated then Effect(s, None, 0, false)
    else if cancel then Effect(Terminate(s, failed, true), None, 0, true)
    else Signal(Terminate(s, failed, false))
  }

  /** The cleanup runs in the section that ends the stream and in no other. */
  function CleanedUp(before: Stream, after: Stream): nat {
    if after.flags.terminated && !before.flags.terminated then 1 else 0
  }

  /** `fail` with the `callbacks` lock held. */
  function FailNow<T>(s: Stream): Effect<T> {
    if s.flags.terminated then Effect(s, None, 0, false) else Signal(Terminate(s, true, false))
  }

  /** `request` after its first look at `terminated`. */
  function RequestBody<T>(s: Stream, count: int): Effect<T> {
    if count <= 0 then FailNow(s).(cancel := true)
    else Grant(s.(demand := RaisedDemand(s.demand, count)))
  }

  predicate MayEmit(s: Stream) {
    s.flags.subscribed && s.demand != 0 && s.outstanding != 0
  }

  function TakeItem(s: Stream): Stream {
    s.(outstanding := s.outstanding - 1, demand := if s.demand == LONG_MAX then s.demand else s.demand - 1)
  }

  /** `emit` after its first look at `terminated`. */
  function EmitBody<T>(s: Stream, item: T): Effect<T> {
    if MayEmit(s) then Effect(TakeItem(s), Some(OnNext(item)), 0, false)
    else FailNow(s).(cancel := true)
  }

  /** The end of an `onNext` callback. */
  function Delivered<T>(s: Stream): Effect<T> {
    Grant(s.(pending := s.pending - 1))
  }

  class MoonLightServerStream<T> {
    var demand: int
    var outstandingWireCredit: int
    var pendingCallbacks: int
    var subscribed: bool
    var subscribing: bool
    var terminated: bool
    var cancelled: bool
    var failed: bool
    var terminalDelivered: bool
    var callbackQueue: seq<Callback<T>>
    /** How often the terminal cleanup has run. */
    var cleanups: nat

    function State(): Stream
      reads this
    {
      Stream(demand, outstandingWireCredit, pendingCallbacks,
             Flags(subscribed, subscribing, terminated, cancelled, failed, terminalDelivered))
    }

    /** The fields and the queue after `effect` on the fields `before` and the queue `queue`. */
    ghost predicate After(effect: Effect<T>, queue: seq<Callback<T>>)
      reads this
    {
      && State() == effect.stream
      && callbackQueue == if effect.queued.Some? then queue + [effect.queued.value] else queue
    }

    constructor ()
      ensures Fresh(State()) && callbackQueue == [] && cleanups == 0
    {
      demand, outstandingWireCredit, pendingCallbacks := 0, 0, 0;
      subscribed, subscribing, terminated, cancelled, failed, terminalDelivered :=
        false, false, false, false, false, false;
      callbackQueue, cleanups := [], 0;
    }

    method GrantAvailableCredit() returns (granted: int)
      modifies this
      ensures After(Grant(old(State())), old(callbackQueue)) && granted == Credit(old(State()))
      ensures cleanups == old(cleanups)
    {
      granted := 0;
      if terminated { return; }
      var ungrantedDemand := demand - outstandingWireCredit;
      if ungrantedDemand <= 0 { return; }
      var availableCallbacks := MAX_PENDING_CALLBACKS - pendingCallbacks;
      var credit := Minimum(ungrantedDemand, availableCallbacks);
      if credit <= 0 { return; }
      outstandingWireCredit := outstandingWireCredit + credit;
      pendingCallbacks := pendingCallbacks + credit;
      granted := credit;
    }

    method SignalTerminal()
      modifies this
      ensures After(Signal(old(State())), old(callbackQueue)) && cleanups == old(cleanups)
    {
      if !terminated || subscribing || terminalDelivered || cancelled || !subscribed { return; }
      terminalDelivered := true;
      callbackQueue := callbackQueue + [OnTerminal(failed)];
    }

    /** `complete`, `fail` and `cancelStream` in one: the first caller ends the stream, runs the
        cleanup and then either cancels the remote side or signals the subscriber. */
    method Finish(error: bool, cancel: bool) returns (cancelRemote: bool)
      modifies this
      ensures var effect := FinishNow(old(State()), error, cancel);
              After(effect, old(callbackQueue)) && cancelRemote == effect.cancel
      ensures cleanups == old(cleanups) + CleanedUp(old(State()), State())
    {
      if terminated { return false; }
      failed, cancelled, terminated := error, cancel, true;
      cleanups := cleanups + 1;
      if cancel {
        return true;
      }
      SignalTerminal();
      return false;
    }

    method Fail()
      modifies this
      ensures After(FailNow(old(State())), old(callbackQueue))
      ensures cleanups == old(cleanups) + CleanedUp(old(State()), State())
    {
      var _ := Finish(true, false);
    }

    method Request(count: int) returns (granted: int, cancelRemote: bool)
      modifies this
      ensures old(terminated) ==>
        State() == old(State()) && callbackQueue == old(callbackQueue) && granted == 0 && !cancelRemote
      ensures !old(terminated) ==>
        var effect := RequestBody(old(State()), count);
        After(effect, old(callbackQueue)) && granted == effect.credit && cancelRemote == effect.cancel
      ensures cleanups == old(cleanups) + CleanedUp(old(State()), State())
    {
      granted, cancelRemote := 0, false;
      if terminated { return; }
      if count <= 0 {
        Fail();
        return 0, true;
      }
      demand := RaisedDemand(demand, count);
      granted := GrantAvailableCredit();
    }

    method Emit(item: T) returns (cancelRemote: bool)
      modifies this
      ensures old(terminated) ==> State() == old(State()) && callbackQueue == old(callbackQueue) && !cancelRemote
      ensures !old(terminated) ==>
        var effect := EmitBody(old(State()), item);
        After(effect, old(callbackQueue)) && cancelRemote == effect.cancel
      ensures cleanups == old(cleanups) + CleanedUp(old(State()), State())
    {
      cancelRemote := false;
      if terminated { return; }
      if !subscribed || demand == 0 || outstandingWireCredit == 0 {
        Fail();
        return true;
      }
      outstandingWireCredit := outstandingWireCredit - 1;
      demand := if demand == LONG_MAX then demand else demand - 1;
      callbackQueue := callbackQueue + [OnNext(item)];
    }

    method FinishOnNext() returns (granted: int)
      modifies this
      ensures var effect := Delivered(old(State())); After(effect, old(callbackQueue)) && granted == effect.credit
      ensures cleanups == old(cleanups)
    {
      pendingCallbacks := pendingCallbacks - 1;
      granted := GrantAvailableCredit();
    }
  }

  // ---------------------------------------------------------------------------
  // Credit is bounded and never stalls

  /** Holds whenever no section is running. The last line: while the stream is live, either
      all demand is granted or all callback slots are taken. */
  predicate Balanced(s: Stream) {
    && 0 <= s.outstanding <= s.demand <= LONG_MAX
    && s.outstanding <= s.pending <= MAX_PENDING_CALLBACKS
    && (!s.flags.terminated ==> s.outstanding == s.demand || s.pending == MAX_PENDING_CALLBACKS)
  }

  /** `RaisedDemand` is addition that stops at the largest `long`. */
  lemma RaisedDemandSaturates(current: int, count: int)
    requires 0 <= current <= LONG_MAX && 0 < count <= LONG_MAX
    ensures RaisedDemand(current, count) == Minimum(current + count, LONG_MAX)
  {
  }

  lemma GrantBalances<T>(s: Stream)
    requires 0 <= s.outstanding <= s.demand <= LONG_MAX
    requires s.outstanding <= s.pending <= MAX_PENDING_CALLBACKS
    ensures Balanced(Grant<T>(s).stream)
  {
  }
}
