/** The client's direct write (MoonLightClient.java, `sendRequest` and `tryWriteDirect`): the
    caller writes its own request when the connection is idle. The limit on unanswered bytes
    is checked before the write lock is taken, so what keeps it is the pending table. */
module DirectWrite {
  const MAX_DIRECT_WRITE_BYTES: nat := 16 * 1024
  const MAX_UNANSWERED_DIRECT_BYTES: nat := 64 * 1024

  /** Where a call is: in the pending table, past the idle test, past the test of the bytes,
      then written or handed to the writer thread, and off the table again. */
  datatype Stage = Entered | Idle | Fits | Written | Queued | Left

  datatype Caller = Caller(length: nat, stage: Stage)

  datatype Sys = Sys(callers: seq<Caller>, pending: set<nat>, unanswered: nat)

  /** A response, timeout or cancel takes a call off the table only after its frame has been
      written or queued: before that the peer cannot answer it and nobody holds its future.
      `Reset` is the arrival of any answer. */
  datatype Step =
    | Enter(length: nat)
    | TestIdle(c: nat)
    | TestBytes(c: nat)
    | Bail(c: nat)
    | Write(c: nat)
    | Leave(c: nat)
    | Reset

  predicate Enabled(s: Sys, step: Step) {
    match step
    case Enter(_) => true
    case TestIdle(c) => c < |s.callers| && s.callers[c].stage == Entered
    case TestBytes(c) => c < |s.callers| && s.callers[c].stage == Idle
    case Bail(c) => c < |s.callers| && (s.callers[c].stage == Idle || s.callers[c].stage == Fits)
    case Write(c) => c < |s.callers| && s.callers[c].stage == Fits
    case Leave(c) => c < |s.callers| && (s.callers[c].stage == Written || s.callers[c].stage == Queued)
    case Reset => true
  }

  function To(s: Sys, c: nat, stage: Stage): Sys
    requires c < |s.callers|
  {
    s.(callers := s.callers[c := s.callers[c].(stage := stage)])
  }

  function Apply(s: Sys, step: Step): Sys
    requires Enabled(s, step)
  {
    match step
    case Enter(length) => Sys(s.callers + [Caller(length, Entered)], s.pending + {|s.callers|}, s.unanswered)
    case TestIdle(c) =>
      To(s, c, if s.callers[c].length > MAX_DIRECT_WRITE_BYTES || |s.pending| > 1 then Queued else Idle)
    case TestBytes(c) =>
      To(s, c, if s.unanswered + s.callers[c].length > MAX_UNANSWERED_DIRECT_BYTES then Queued else Fits)
    case Bail(c) => To(s, c, Queued)
    case Write(c) => To(s, c, Written).(unanswered := s.unanswered + s.callers[c].length)
    case Leave(c) => To(s, c, Left).(pending := s.pending - {c})
    case Reset => s.(unanswered := 0)
  }

  ghost predicate Run(states: seq<Sys>, steps: seq<Step>) {
    && |states| == |steps| + 1 && states[0] == Sys([], {}, 0)
    && forall i :: 0 <= i < |steps| ==> Enabled(states[i], steps[i]) && states[i + 1] == Apply(states[i], steps[i])
  }

  /** Past the idle test and not yet done. */
  predicate Direct(s: Sys, c: int) {
    0 <= c < |s.callers| && (s.callers[c].stage == Idle || s.callers[c].stage == Fits)
  }

  predicate InTable(s: Sys, c: nat) {
    c < |s.callers| && s.callers[c].stage != Left
  }

  ghost predicate Inv(s: Sys) {
    && (forall c: nat :: c in s.pending <==> InTable(s, c))
    && (forall c, d :: Direct(s, c) && Direct(s, d) ==> c == d)
    && (forall c :: 0 <= c < |s.callers| && s.callers[c].stage == Fits ==>
          s.unanswered + s.callers[c].length <= MAX_UNANSWERED_DIRECT_BYTES)
    && s.unanswered <= MAX_UNANSWERED_DIRECT_BYTES
  }

  lemma Alone(s: Sys, c: nat, d: nat)
    requires c in s.pending && d in s.pending && |s.pending| <= 1
    ensures c == d
  {
    assert s.pending == {c} + (s.pending - {c});
    assert |s.pending - {c}| == |s.pending| - 1;
  }

  /** Who passes the idle test was alone in the table, and is now alone on the direct path. */
  lemma PassesAlone(s: Sys, c: nat)
    requires Inv(s) && Enabled(s, TestIdle(c)) && Apply(s, TestIdle(c)).callers[c].stage == Idle
    ensures s.pending == {c}
    ensures forall d :: Direct(Apply(s, TestIdle(c)), d) <==> d == c
  {
    assert InTable(s, c);
    forall d | d in s.pending ensures d == c {
      Alone(s, d, c);
    }
    forall d | Direct(Apply(s, TestIdle(c)), d) ensures d == c {
      assert InTable(s, d);
    }
  }

  lemma StepKeepsOneDirect(s: Sys, step: Step, c: int, d: int)
    requires Inv(s) && Enabled(s, step) && Direct(Apply(s, step), c) && Direct(Apply(s, step), d)
    ensures c == d
  {
    if step.TestIdle? && Apply(s, step).callers[step.c].stage == Idle {
      PassesAlone(s, step.c);
    } else {
      assert Direct(s, c) && Direct(s, d);
    }
  }

  lemma StepKeepsInv(s: Sys, step: Step)
    requires Inv(s) && Enabled(s, step)
    ensures Inv(Apply(s, step))
  {
    var s' := Apply(s, step);
    forall c, d | Direct(s', c) && Direct(s', d) ensures c == d {
      StepKeepsOneDirect(s, step, c, d);
    }
    forall c: nat ensures c in s'.pending <==> InTable(s', c) {
      assert c in s.pending <==> InTable(s, c);
    }
    forall c | 0 <= c < |s'.callers| && s'.callers[c].stage == Fits
      ensures s'.unanswered + s'.callers[c].length <= MAX_UNANSWERED_DIRECT_BYTES
    {
      if step.Write? {
        assert Direct(s, c) && Direct(s, step.c);
      }
    }
  }

  lemma {:induction false} RunInv(states: seq<Sys>, steps: seq<Step>, i: nat)
    requires Run(states, steps) && i < |states|
    ensures Inv(states[i])
  {
    if i > 0 {
      RunInv(states, steps, i - 1);
      assert states[i - 1 + 1] == Apply(states[i - 1], steps[i - 1]);
      StepKeepsInv(states[i - 1], steps[i - 1]);
    }
  }

  // ---------------------------------------------------------------------------
  // What the run itself says

  /** The bytes written directly since the last answer. */
  ghost function WrittenSinceAnswer(states: seq<Sys>, steps: seq<Step>, i: nat): nat
    requires Run(states, steps) && i < |states|
  {
    if i == 0 then 0
    else match steps[i - 1]
      case Reset => 0
      case Write(c) => WrittenSinceAnswer(states, steps, i - 1) + states[i - 1].callers[c].length
      case _ => WrittenSinceAnswer(states, steps, i - 1)
  }

  /** The counter counts the bytes written. */
  lemma {:induction false} CounterCounts(states: seq<Sys>, steps: seq<Step>, i: nat)
    requires Run(states, steps) && i < |states|
    ensures states[i].unanswered == WrittenSinceAnswer(states, steps, i)
  {
    if i > 0 {
      CounterCounts(states, steps, i - 1);
      assert states[i - 1 + 1] == Apply(states[i - 1], steps[i - 1]);
    }
  }

  predicate CallerNext(s: Sys, step: Step, t: Sys, c: nat) {
    && |s.callers| <= |t.callers| <= |s.callers| + 1
    && (c < |s.callers| ==> t.callers[c].length == s.callers[c].length)
    && (|s.callers| <= c < |t.callers| ==> step == Enter(t.callers[c].length))
  }

  lemma {:induction false} EnteredFollows(states: seq<Sys>, steps: seq<Step>, i: nat, c: nat) returns (j: nat)
    requires |states| == |steps| + 1 && i < |states| && states[0].callers == [] && c < |states[i].callers|
    requires forall k :: 0 <= k < |steps| ==> CallerNext(states[k], steps[k], states[k + 1], c)
    ensures j < i && |states[j].callers| == c && steps[j] == Enter(states[i].callers[c].length)
  {
    assert CallerNext(states[i - 1], steps[i - 1], states[i - 1 + 1], c);
    if c < |states[i - 1].callers| {
      j := EnteredFollows(states, steps, i - 1, c);
    } else {
      j := i - 1;
    }
  }

  /** The c-th caller is the one of the c-th `Enter`, with its length. */
  lemma CallerEntered(states: seq<Sys>, steps: seq<Step>, i: nat, c: nat) returns (j: nat)
    requires Run(states, steps) && i < |states| && c < |states[i].callers|
    ensures j < i && |states[j].callers| == c && steps[j] == Enter(states[i].callers[c].length)
  {
    forall k | 0 <= k < |steps| ensures CallerNext(states[k], steps[k], states[k + 1], c) {
      assert states[k + 1] == Apply(states[k], steps[k]);
    }
    j := EnteredFollows(states, steps, i, c);
  }

  /** At most one caller is past the idle test, and the bytes written directly and not yet
      answered never exceed 64 KiB. */
  lemma DirectBytesBounded(states: seq<Sys>, steps: seq<Step>, i: nat, c: nat, d: nat)
    requires Run(states, steps) && i < |states|
    ensures WrittenSinceAnswer(states, steps, i) <= MAX_UNANSWERED_DIRECT_BYTES
    ensures Direct(states[i], c) && Direct(states[i], d) ==> c == d
  {
    RunInv(states, steps, i);
    CounterCounts(states, steps, i);
  }

  /** Where a step takes its caller: on the direct path exactly while it is alone and both
      limits allow it. */
  lemma DirectExactlyWhenAllowed(states: seq<Sys>, steps: seq<Step>, i: nat, c: nat)
    requires Run(states, steps) && i < |steps| && c < |states[i].callers|
    ensures c < |states[i + 1].callers|
    ensures var x, y, step := states[i].callers[c], states[i + 1].callers[c].stage, steps[i];
      && (step == TestIdle(c) ==>
           y == if x.length <= MAX_DIRECT_WRITE_BYTES && states[i].pending == {c} then Idle else Queued)
      && (step == TestBytes(c) ==>
           y == if WrittenSinceAnswer(states, steps, i) + x.length <= MAX_UNANSWERED_DIRECT_BYTES then Fits else Queued)
      && (step == Bail(c) ==> y == Queued)
      && (step == Write(c) ==> y == Written)
      && (step == Leave(c) ==> y == Left && c !in states[i + 1].pending)
      && (step.Enter? || step.Reset? || step.c != c ==> y == x.stage)
  {
    RunInv(states, steps, i);
    CounterCounts(states, steps, i);
    assert states[i + 1] == Apply(states[i], steps[i]);
    if steps[i] == TestIdle(c) {
      assert InTable(states[i], c);
      AloneIff(states[i], c);
    }
  }

  lemma AloneIff(s: Sys, c: nat)
    requires c in s.pending
    ensures |s.pending| <= 1 <==> s.pending == {c}
  {
    if |s.pending| <= 1 {
      forall d | d in s.pending ensures d == c {
        Alone(s, d, c);
      }
    }
  }
}
