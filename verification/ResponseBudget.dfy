/** The two-level response budget of `ResponseQueue` under every interleaving
    (crates/moonlight-bridge-server/src/lib.rs). */
module ResponseBudget {
  import opened Common

  /** A frame on its way: asking the connection, then the process, queued with both permits,
      then written and giving them back in the order the fields are dropped. */
  datatype Phase = Outside | HasConnection | HasBoth | Returning

  datatype Response = Response(connection: nat, size: nat, phase: Phase)

  /** Semaphores count what is left. */
  datatype Budget = Budget(processCapacity: nat, processLeft: int, capacities: seq<nat>, left: seq<int>,
                           responses: seq<Response>)

  /** `GiveBack` drops the first permit without the second: `try_reserve` failing, or a
      waiting `reserve` aborted. */
  datatype Step =
    | Offer(connection: nat, size: nat)
    | AcquireConnection(r: nat)
    | AcquireProcess(r: nat)
    | GiveBack(r: nat)
    | ReturnProcess(r: nat)
    | ReturnConnection(r: nat)

  predicate Wellformed(b: Budget) {
    && |b.left| == |b.capacities|
    && forall i :: 0 <= i < |b.responses| ==> b.responses[i].connection < |b.left|
  }

  predicate Enabled(b: Budget, step: Step) {
    if step.Offer? then step.connection < |b.left|
    else
      && step.r < |b.responses|
      && var x := b.responses[step.r];
         x.connection < |b.left| &&
         match step
         case AcquireConnection(_) => x.phase.Outside? && x.size <= b.left[x.connection]
         case AcquireProcess(_) => x.phase.HasConnection? && x.size <= b.processLeft
         case GiveBack(_) => x.phase.HasConnection?
         case ReturnProcess(_) => x.phase.HasBoth?
         case ReturnConnection(_) => x.phase.Returning?
  }

  function To(b: Budget, r: nat, phase: Phase): seq<Response>
    requires r < |b.responses|
  {
    b.responses[r := b.responses[r].(phase := phase)]
  }

  function Apply(b: Budget, step: Step): Budget
    requires Wellformed(b) && Enabled(b, step)
  {
    if step.Offer? then b.(responses := b.responses + [Response(step.connection, step.size, Outside)])
    else
      var r := step.r;
      var x := b.responses[r];
      match step
      case AcquireConnection(_) =>
        b.(left := b.left[x.connection := b.left[x.connection] - x.size], responses := To(b, r, HasConnection))
      case AcquireProcess(_) => b.(processLeft := b.processLeft - x.size, responses := To(b, r, HasBoth))
      case GiveBack(_) =>
        b.(left := b.left[x.connection := b.left[x.connection] + x.size], responses := To(b, r, Outside))
      case ReturnProcess(_) => b.(processLeft := b.processLeft + x.size, responses := To(b, r, Returning))
      case ReturnConnection(_) =>
        b.(left := b.left[x.connection := b.left[x.connection] + x.size], responses := To(b, r, Outside))
  }

  function ProcessHeld(x: Response): int {
    if x.phase.HasBoth? then x.size else 0
  }

  function ConnectionHeld(c: nat, x: Response): int {
    if x.connection == c && !x.phase.Outside? then x.size else 0
  }

  function HeldOn(c: nat): Response -> int {
    (x: Response) => ConnectionHeld(c, x)
  }

  /** Of a connection's responses, those that hold the process's bytes too. */
  function BothOn(c: nat): Response -> int {
    (x: Response) => if x.connection == c then ProcessHeld(x) else 0
  }

  predicate Initial(b: Budget) {
    && b.processLeft == b.processCapacity && b.left == b.capacities && b.responses == []
  }

  ghost predicate Run(states: seq<Budget>, steps: seq<Step>) {
    && |states| == |steps| + 1 && Initial(states[0])
    && forall i :: 0 <= i < |steps| ==>
         Wellformed(states[i]) && Enabled(states[i], steps[i]) && states[i + 1] == Apply(states[i], steps[i])
  }

  ghost predicate Inv(b: Budget) {
    && Wellformed(b)
    && b.processLeft == b.processCapacity - Sum(b.responses, ProcessHeld)
    && b.processLeft >= 0
    && forall c :: 0 <= c < |b.left| ==> b.left[c] == b.capacities[c] - Sum(b.responses, HeldOn(c)) && b.left[c] >= 0
  }

  lemma MoveSums(b: Budget, r: nat, phase: Phase, c: nat)
    requires r < |b.responses|
    ensures Sum(To(b, r, phase), ProcessHeld) ==
      Sum(b.responses, ProcessHeld) - ProcessHeld(b.responses[r]) + ProcessHeld(b.responses[r].(phase := phase))
    ensures Sum(To(b, r, phase), HeldOn(c)) ==
      Sum(b.responses, HeldOn(c)) - ConnectionHeld(c, b.responses[r])
        + ConnectionHeld(c, b.responses[r].(phase := phase))
  {
    SumUpdate(b.responses, r, b.responses[r].(phase := phase), ProcessHeld);
    SumUpdate(b.responses, r, b.responses[r].(phase := phase), HeldOn(c));
  }

  lemma StepKeepsInv(b: Budget, step: Step)
    requires Inv(b) && Enabled(b, step)
    ensures Inv(Apply(b, step))
  {
    if step.Offer? {
      OfferKeepsInv(b, step);
    } else {
      MoveKeepsInv(b, step);
    }
  }

  lemma OfferKeepsInv(b: Budget, step: Step)
    requires Inv(b) && Enabled(b, step) && step.Offer?
    ensures Inv(Apply(b, step))
  {
    var x := Response(step.connection, step.size, Outside);
    SumAppend(b.responses, x, ProcessHeld);
    forall c | 0 <= c < |b.left| ensures Sum(b.responses + [x], HeldOn(c)) == Sum(b.responses, HeldOn(c)) {
      SumAppend(b.responses, x, HeldOn(c));
    }
  }

  lemma MoveKeepsInv(b: Budget, step: Step)
    requires Inv(b) && Enabled(b, step) && !step.Offer?
    ensures Inv(Apply(b, step))
  {
    var after := Apply(b, step);
    var phase := after.responses[step.r].phase;
    MoveSums(b, step.r, phase, 0);
    forall c | 0 <= c < |b.left|
      ensures after.left[c] == after.capacities[c] - Sum(after.responses, HeldOn(c)) && after.left[c] >= 0
    {
      MoveSums(b, step.r, phase, c);
    }
  }

  lemma {:induction false} RunInv(states: seq<Budget>, steps: seq<Step>, i: nat)
    requires Run(states, steps) && i < |states|
    ensures Inv(states[i]) && states[i].capacities == states[0].capacities
    ensures states[i].processCapacity == states[0].processCapacity
  {
    if i > 0 {
      RunInv(states, steps, i - 1);
      assert states[i - 1 + 1] == Apply(states[i - 1], steps[i - 1]);
      StepKeepsInv(states[i - 1], steps[i - 1]);
    } else {
      forall c | 0 <= c < |states[0].left| ensures Sum(states[0].responses, HeldOn(c)) == 0 {
      }
    }
  }

  /** Adding over the connections what each one's responses hold. */
  function OverConnections(n: nat, responses: seq<Response>): int {
    if n == 0 then 0 else OverConnections(n - 1, responses) + Sum(responses, BothOn(n - 1))
  }

  lemma {:induction false} OverConnectionsCons(n: nat, x: Response, responses: seq<Response>)
    ensures OverConnections(n, [x] + responses) ==
      OverConnections(n, responses) + if x.connection < n then ProcessHeld(x) else 0
  {
    if n > 0 {
      OverConnectionsCons(n - 1, x, responses);
      assert ([x] + responses)[1..] == responses;
    }
  }

  lemma {:induction false} SumByConnection(n: nat, responses: seq<Response>)
    requires forall i :: 0 <= i < |responses| ==> responses[i].connection < n
    ensures Sum(responses, ProcessHeld) == OverConnections(n, responses)
  {
    if responses == [] {
      NothingHeld(n);
    } else {
      SumByConnection(n, responses[1..]);
      OverConnectionsCons(n, responses[0], responses[1..]);
      assert [responses[0]] + responses[1..] == responses;
    }
  }

  lemma {:induction false} NothingHeld(n: nat)
    ensures OverConnections(n, []) == 0
  {
    if n > 0 {
      NothingHeld(n - 1);
    }
  }

  lemma {:induction false} BothAtMostHeld(responses: seq<Response>, c: nat)
    ensures 0 <= Sum(responses, BothOn(c)) <= Sum(responses, HeldOn(c))
  {
    if responses != [] {
      BothAtMostHeld(responses[1..], c);
    }
  }

  /** In every state of every run: what the process has given out is the sum over the
      connections of what their queued responses hold, each connection has given out at least
      its share of that, and neither is ever overdrawn. */
  lemma BytesConserved(states: seq<Budget>, steps: seq<Step>, i: nat)
    requires Run(states, steps) && i < |states|
    ensures Wellformed(states[i])
    ensures var b := states[i];
      && b.processCapacity - b.processLeft == OverConnections(|b.left|, b.responses)
      && 0 <= b.processLeft <= b.processCapacity
      && forall c :: 0 <= c < |b.left| ==>
           Sum(b.responses, BothOn(c)) <= b.capacities[c] - b.left[c] <= b.capacities[c]
  {
    RunInv(states, steps, i);
    var b := states[i];
    SumByConnection(|b.left|, b.responses);
    forall x | x in b.responses ensures ProcessHeld(x) >= 0 {
    }
    SumBounds(b.responses, ProcessHeld);
    forall c | 0 <= c < |b.left| ensures Sum(b.responses, BothOn(c)) <= b.capacities[c] - b.left[c] <= b.capacities[c] {
      BothAtMostHeld(b.responses, c);
    }
  }

  /** What the responses other than r hold on connection c. */
  function OthersHold(b: Budget, r: nat, c: nat): int
    requires r < |b.responses|
  {
    Sum(b.responses[..r], HeldOn(c)) + Sum(b.responses[r + 1..], HeldOn(c))
  }

  /** While a response holds nothing, its connection has out exactly what the others hold. */
  lemma OthersAccount(b: Budget, r: nat)
    requires Inv(b) && r < |b.responses| && b.responses[r].phase.Outside?
    ensures var c := b.responses[r].connection; b.left[c] + OthersHold(b, r, c) == b.capacities[c]
  {
    SumSplit(b.responses, r, HeldOn(b.responses[r].connection));
  }

  /** A response keeps its connection. */
  lemma {:induction false} SameConnection(states: seq<Budget>, steps: seq<Step>, k: nat, i: nat, r: nat)
    requires Run(states, steps) && k <= i < |states| && r < |states[k].responses|
    ensures r < |states[i].responses| && states[i].responses[r].connection == states[k].responses[r].connection
    decreases i
  {
    if k < i {
      SameConnection(states, steps, k, i - 1, r);
      assert states[i - 1 + 1] == Apply(states[i - 1], steps[i - 1]);
    }
  }

  /** A reservation that got the connection's bytes and then not the process's leaves nothing
      behind: whatever happened in between, what the connection has left, together with what
      the other responses hold on it, is what it was before the first acquisition, and the
      process's bytes are untouched by the failure. */
  lemma FailedReservationReturnsBytes(states: seq<Budget>, steps: seq<Step>, k: nat, i: nat, r: nat)
    requires Run(states, steps) && k < i < |steps|
    requires steps[k] == AcquireConnection(r) && steps[i] == GiveBack(r)
    ensures r < |states[k].responses| && r < |states[i + 1].responses| && Wellformed(states[k])
    ensures Wellformed(states[i + 1])
    ensures var c := states[k].responses[r].connection;
      && states[i + 1].responses[r].connection == c && states[i + 1].responses[r].phase.Outside?
      && |states[i + 1].left| == |states[k].left|
      && states[i + 1].left[c] + OthersHold(states[i + 1], r, c) == states[k].left[c] + OthersHold(states[k], r, c)
      && states[i + 1].processLeft == states[i].processLeft
  {
    RunInv(states, steps, k);
    RunInv(states, steps, i + 1);
    assert states[i + 1] == Apply(states[i], steps[i]);
    SameConnection(states, steps, k, i + 1, r);
    OthersAccount(states[k], r);
    OthersAccount(states[i + 1], r);
  }

  /** When no response is under way all bytes are back. */
  lemma NothingLeaks(states: seq<Budget>, steps: seq<Step>, i: nat)
    requires Run(states, steps) && i < |states|
    requires forall r :: 0 <= r < |states[i].responses| ==> states[i].responses[r].phase.Outside?
    ensures states[i].processLeft == states[i].processCapacity && states[i].left == states[i].capacities
  {
    RunInv(states, steps, i);
    var b := states[i];
    AllOutside(b.responses, 0);
    forall c | 0 <= c < |b.left| ensures b.left[c] == b.capacities[c] {
      AllOutside(b.responses, c);
    }
  }

  lemma {:induction false} AllOutside(responses: seq<Response>, c: nat)
    requires forall r :: 0 <= r < |responses| ==> responses[r].phase.Outside?
    ensures Sum(responses, ProcessHeld) == 0 && Sum(responses, HeldOn(c)) == 0
  {
    if responses != [] {
      AllOutside(responses[1..], c);
    }
  }

  // ---------------------------------------------------------------------------
  // What the run itself says

  /** The r-th response is the one of the r-th `Offer`: what it reserves is what was offered. */
  lemma {:induction false} ReservesWhatWasOffered(states: seq<Budget>, steps: seq<Step>, i: nat, r: nat)
    returns (j: nat)
    requires Run(states, steps) && i < |states| && r < |states[i].responses|
    ensures j < i && |states[j].responses| == r
    ensures steps[j] == Offer(states[i].responses[r].connection, states[i].responses[r].size)
  {
    assert states[i - 1 + 1] == Apply(states[i - 1], steps[i - 1]);
    if r < |states[i - 1].responses| {
      j := ReservesWhatWasOffered(states, steps, i - 1, r);
    } else {
      j := i - 1;
    }
  }

  function PhaseAfter(step: Step): Phase {
    match step
    case Offer(_, _) => Outside
    case AcquireConnection(_) => HasConnection
    case AcquireProcess(_) => HasBoth
    case GiveBack(_) => Outside
    case ReturnProcess(_) => Returning
    case ReturnConnection(_) => Outside
  }

  predicate StepOn(step: Step, r: nat) {
    !step.Offer? && step.r == r
  }

  /** Of the first i steps the j-th is the last one on this response. */
  ghost predicate LastOn(steps: seq<Step>, j: int, i: nat, r: nat) {
    0 <= j < i <= |steps| && StepOn(steps[j], r) && forall m :: j < m < i ==> !StepOn(steps[m], r)
  }

  /** A response is where the last step on it took it, and was outside before any. */
  lemma {:induction false} PhaseFollowsSteps(states: seq<Budget>, steps: seq<Step>, i: nat, r: nat)
    requires Run(states, steps) && i < |states| && r < |states[i].responses|
    ensures (forall j :: 0 <= j < i ==> !StepOn(steps[j], r)) ==> states[i].responses[r].phase == Outside
    ensures forall j :: LastOn(steps, j, i, r) ==> states[i].responses[r].phase == PhaseAfter(steps[j])
  {
    assert states[i - 1 + 1] == Apply(states[i - 1], steps[i - 1]);
    if r < |states[i - 1].responses| {
      PhaseFollowsSteps(states, steps, i - 1, r);
      forall j | LastOn(steps, j, i, r) ensures states[i].responses[r].phase == PhaseAfter(steps[j]) {
        if j < i - 1 { assert LastOn(steps, j, i - 1, r); }
      }
    } else {
      NotYetOffered(states, steps, i - 1, r);
    }
  }

  lemma {:induction false} NotYetOffered(states: seq<Budget>, steps: seq<Step>, i: nat, r: nat)
    requires Run(states, steps) && i < |states| && |states[i].responses| <= r
    ensures forall j :: 0 <= j < i ==> !StepOn(steps[j], r)
  {
    if i > 0 {
      assert states[i - 1 + 1] == Apply(states[i - 1], steps[i - 1]);
      NotYetOffered(states, steps, i - 1, r);
    }
  }

  /** A permit can be had exactly when what is held leaves room for it. */
  lemma AcquiresIffRoom(states: seq<Budget>, steps: seq<Step>, i: nat, r: nat)
    requires Run(states, steps) && i < |states| && r < |states[i].responses|
    ensures var b, x := states[i], states[i].responses[r];
      && x.connection < |b.capacities|
      && (Enabled(b, AcquireConnection(r)) <==>
           x.phase.Outside? && Sum(b.responses, HeldOn(x.connection)) + x.size <= b.capacities[x.connection])
      && (Enabled(b, AcquireProcess(r)) <==>
           x.phase.HasConnection? && Sum(b.responses, ProcessHeld) + x.size <= b.processCapacity)
  {
    RunInv(states, steps, i);
  }
}
