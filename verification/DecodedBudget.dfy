/** The lock-free decoded-byte budget under every interleaving
    (crates/moonlight-bridge-protocol/src/compression.rs and MoonLightCompression.java). */
module DecodedBudget {
  import opened Common

  /** A caller of `try_reserve`: in the loop with the value it last observed, refused, or
      holding a permit. */
  datatype Caller = Idle | Trying(requested: nat, observed: int) | Refused(requested: nat, available: int)
                  | Holding(reserved: nat)

  datatype Budget = Budget(capacity: nat, used: int, callers: seq<Caller>)

  /** `Try` is one round of the loop; `compare_exchange_weak` may fail for no reason. */
  datatype Step = Load(c: nat, requested: nat) | Try(c: nat, spurious: bool) | Release(c: nat)

  function Available(capacity: nat, observed: int): int {
    if observed > capacity then 0 else capacity - observed
  }

  predicate Enabled(b: Budget, step: Step) {
    && step.c < |b.callers|
    && match step
       case Load(c, _) => b.callers[c].Idle? || b.callers[c].Refused?
       case Try(c, _) => b.callers[c].Trying?
       case Release(c) => b.callers[c].Holding?
  }

  function Apply(b: Budget, step: Step): Budget
    requires Enabled(b, step)
  {
    match step
    case Load(c, requested) => b.(callers := b.callers[c := Trying(requested, b.used)])
    case Try(c, spurious) =>
      var Trying(requested, observed) := b.callers[c];
      if requested > Available(b.capacity, observed) then
        b.(callers := b.callers[c := Refused(requested, Available(b.capacity, observed))])
      else if b.used == observed && !spurious then
        b.(used := observed + requested, callers := b.callers[c := Holding(requested)])
      else b.(callers := b.callers[c := Trying(requested, b.used)])
    case Release(c) => b.(used := b.used - b.callers[c].reserved, callers := b.callers[c := Idle])
  }

  function Held(caller: Caller): int {
    if caller.Holding? then caller.reserved else 0
  }

  predicate Initial(b: Budget) {
    b.used == 0 && forall i :: 0 <= i < |b.callers| ==> b.callers[i].Idle?
  }

  ghost predicate Run(states: seq<Budget>, steps: seq<Step>) {
    && |states| == |steps| + 1 && Initial(states[0])
    && forall i :: 0 <= i < |steps| ==> Enabled(states[i], steps[i]) && states[i + 1] == Apply(states[i], steps[i])
  }

  ghost predicate Inv(b: Budget) {
    b.used == Sum(b.callers, Held) && b.used <= b.capacity
  }

  lemma StepKeepsInv(b: Budget, step: Step)
    requires Inv(b) && Enabled(b, step)
    ensures Inv(Apply(b, step)) && Apply(b, step).capacity == b.capacity
  {
    var c := step.c;
    SumUpdate(b.callers, c, Apply(b, step).callers[c], Held);
  }

  lemma {:induction false} InitialSum(callers: seq<Caller>)
    requires forall i :: 0 <= i < |callers| ==> !callers[i].Holding?
    ensures Sum(callers, Held) == 0
  {
    if callers != [] {
      InitialSum(callers[1..]);
    }
  }

  /** In every state of every run the counter is the sum of the live permits, never negative
      and never over the capacity; with no live permit it is back at zero. */
  lemma {:induction false} UsedIsSumOfPermits(states: seq<Budget>, steps: seq<Step>, i: nat)
    requires Run(states, steps) && i < |states|
    ensures states[i].used == Sum(states[i].callers, Held)
    ensures 0 <= states[i].used <= states[i].capacity == states[0].capacity
    ensures (forall c :: 0 <= c < |states[i].callers| ==> !states[i].callers[c].Holding?) ==> states[i].used == 0
  {
    if i == 0 {
      InitialSum(states[0].callers);
    } else {
      UsedIsSumOfPermits(states, steps, i - 1);
      assert states[i - 1 + 1] == Apply(states[i - 1], steps[i - 1]);
      StepKeepsInv(states[i - 1], steps[i - 1]);
    }
    SumBounds(states[i].callers, Held);
    if forall c :: 0 <= c < |states[i].callers| ==> !states[i].callers[c].Holding? {
      InitialSum(states[i].callers);
    }
  }

  /** At the i-th state caller c is in, or has just left, an attempt that it began at step k:
      since then it has only gone round the loop. */
  ghost predicate Attempt(steps: seq<Step>, k: int, i: int, c: nat, requested: nat) {
    && 0 <= k < i <= |steps| && steps[k] == Load(c, requested)
    && forall m :: k < m < i && steps[m].c == c ==> steps[m].Try?
  }

  /** What a caller in the loop last observed was the counter at some moment of its attempt. */
  lemma {:induction false} ObservedInAttempt(states: seq<Budget>, steps: seq<Step>, i: nat, c: nat)
    returns (k: nat, j: nat)
    requires Run(states, steps) && i < |states| && c < |states[i].callers| && states[i].callers[c].Trying?
    ensures Attempt(steps, k, i, c, states[i].callers[c].requested)
    ensures k <= j < i && states[j].used == states[i].callers[c].observed
  {
    var before, step := states[i - 1], steps[i - 1];
    assert states[i - 1 + 1] == Apply(before, step);
    CameToTry(before, step, c);
    if step.c == c && step.Load? {
      k, j := i - 1, i - 1;
    } else {
      k, j := ObservedInAttempt(states, steps, i - 1, c);
      AttemptGoesOn(steps, k, i, c, before.callers[c].requested);
      if step.c == c {
        j := i - 1;
      }
    }
  }

  predicate WasTrying(b: Budget, c: nat, requested: nat) {
    c < |b.callers| && b.callers[c].Trying? && b.callers[c].requested == requested
  }

  /** How a caller comes to be in the loop: it loads, goes round, or was there already. */
  lemma CameToTry(b: Budget, step: Step, c: nat)
    requires Enabled(b, step) && c < |b.callers| && Apply(b, step).callers[c].Trying?
    ensures var x := Apply(b, step).callers[c];
      if step.c != c then x == b.callers[c]
      else x.observed == b.used && (step == Load(c, x.requested) || (step.Try? && WasTrying(b, c, x.requested)))
  {
  }

  lemma AttemptGoesOn(steps: seq<Step>, k: int, i: nat, c: nat, requested: nat)
    requires 0 < i <= |steps| && Attempt(steps, k, i - 1, c, requested) && (steps[i - 1].c == c ==> steps[i - 1].Try?)
    ensures Attempt(steps, k, i, c, requested)
  {
  }

  /** A refused caller was refused in an attempt whose last observation left too little. */
  lemma {:induction false} RefusedInAttempt(states: seq<Budget>, steps: seq<Step>, i: nat, c: nat)
    returns (k: nat, j: nat)
    requires Run(states, steps) && i < |states| && c < |states[i].callers| && states[i].callers[c].Refused?
    ensures Attempt(steps, k, i, c, states[i].callers[c].requested)
    ensures k <= j < i && states[i].callers[c].requested > Available(states[0].capacity, states[j].used)
  {
    assert states[i - 1 + 1] == Apply(states[i - 1], steps[i - 1]);
    UsedIsSumOfPermits(states, steps, i - 1);
    if steps[i - 1].c != c {
      k, j := RefusedInAttempt(states, steps, i - 1, c);
    } else {
      RefusedBy(states[i - 1], steps[i - 1]);
      k, j := ObservedInAttempt(states, steps, i - 1, c);
    }
  }

  /** Only a round of the loop refuses, and on what it last observed. */
  lemma RefusedBy(b: Budget, step: Step)
    requires Enabled(b, step) && Apply(b, step).callers[step.c].Refused?
    ensures step.Try? && b.callers[step.c].Trying?
    ensures var Refused(requested, _) := Apply(b, step).callers[step.c];
      requested == b.callers[step.c].requested && requested > Available(b.capacity, b.callers[step.c].observed)
  {
  }

  /** A reservation is refused only if, at some moment between the start of that very attempt
      and its end, the live permits left less than was asked for. */
  lemma RefusedOnlyWhenFull(states: seq<Budget>, steps: seq<Step>, i: nat, c: nat) returns (k: nat, j: nat)
    requires Run(states, steps) && i < |states| && c < |states[i].callers| && states[i].callers[c].Refused?
    ensures Attempt(steps, k, i, c, states[i].callers[c].requested) && k <= j < i
    ensures Sum(states[j].callers, Held) + states[i].callers[c].requested > states[0].capacity
  {
    k, j := RefusedInAttempt(states, steps, i, c);
    UsedIsSumOfPermits(states, steps, j);
  }

  /** A permit is for what was asked for: its holder loaded the counter for that many bytes
      and has since done nothing but go round the loop. */
  lemma {:induction false} HoldsWhatWasAsked(states: seq<Budget>, steps: seq<Step>, i: nat, c: nat) returns (k: nat)
    requires Run(states, steps) && i < |states| && c < |states[i].callers| && states[i].callers[c].Holding?
    ensures Attempt(steps, k, i, c, states[i].callers[c].reserved)
  {
    assert states[i - 1 + 1] == Apply(states[i - 1], steps[i - 1]);
    if steps[i - 1].c != c {
      k := HoldsWhatWasAsked(states, steps, i - 1, c);
    } else {
      var j;
      k, j := ObservedInAttempt(states, steps, i - 1, c);
    }
    AttemptGoesOn(steps, k, i, c, states[i].callers[c].reserved);
  }

  lemma ObservedWithin(states: seq<Budget>, steps: seq<Step>, i: nat, c: nat)
    requires Run(states, steps) && i < |states| && c < |states[i].callers| && states[i].callers[c].Trying?
    ensures 0 <= states[i].callers[c].observed <= states[i].capacity == states[0].capacity
  {
    var k, j := ObservedInAttempt(states, steps, i, c);
    UsedIsSumOfPermits(states, steps, j);
    UsedIsSumOfPermits(states, steps, i);
  }

  /** What each step does, in terms of the live permits: a round grants the permit if and only
      if the counter has not moved since it was observed and the permits leave room, and then
      it raises their sum by what was asked for; a release lowers it by what was held. */
  lemma GrantedIffRoom(states: seq<Budget>, steps: seq<Step>, i: nat)
    requires Run(states, steps) && i < |steps|
    ensures var b, b', step := states[i], states[i + 1], steps[i];
      && |b'.callers| == |b.callers| && b'.callers == b.callers[step.c := b'.callers[step.c]]
      && var x, y := b.callers[step.c], b'.callers[step.c];
         var held, held' := Sum(b.callers, Held), Sum(b'.callers, Held);
         && (step.Load? ==> y == Trying(step.requested, held) && held' == held)
         && (step.Release? ==> y == Idle && held' == held - x.reserved)
         && (step.Try? ==>
              && (y.Holding? <==> x.observed == held && !step.spurious && held + x.requested <= states[0].capacity)
              && (y.Holding? ==> y == Holding(x.requested) && held' == held + x.requested)
              && (y.Refused? <==> x.observed + x.requested > states[0].capacity)
              && (y.Refused? ==> y == Refused(x.requested, states[0].capacity - x.observed))
              && (!y.Holding? ==> held' == held && (y.Refused? || y == Trying(x.requested, held))))
  {
    UsedIsSumOfPermits(states, steps, i);
    var b, step := states[i], steps[i];
    if step.Try? {
      ObservedWithin(states, steps, i, step.c);
    }
    assert states[i + 1] == Apply(b, step);
    SumUpdate(b.callers, step.c, Apply(b, step).callers[step.c], Held);
  }
}
