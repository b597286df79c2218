/** One connection explained by the steps of a run: where a call's request and result come
    from, that an answer reaches its call, and what is on the tables. */
module ConnectionHistory {
  import opened Common
  import opened Wire
  import opened Connection
  import opened ConnectionRuns

  lemma Next(states: seq<Sys>, steps: seq<Step>, i: nat)
    requires Run(states, steps) && i < |steps|
    ensures Enabled(states[i], steps[i]) && states[i + 1] == Apply(states[i], steps[i]) && Inv(states[i])
  {
    RunInv(states, steps, i);
  }

  // ---------------------------------------------------------------------------
  // What a step makes of one call

  /** The reader takes this call's answer. */
  predicate TakesAnswer(s: Sys, step: Step, k: nat) {
    step.Take? && AtAnswer(s.client, s.server.log) && s.server.log[s.client.reader.value].id == k + 1
  }

  /** The step takes the call off the pending table: the reader with its answer, or the
      completion callback. */
  predicate Removes(s: Sys, step: Step, k: nat) {
    TakesAnswer(s, step, k) || (step.Cleanup? && step.k == k)
  }

  /** The client has read an answer to the call with this outcome. */
  predicate AnswerRead(s: Sys, a: int, k: nat, outcome: Outcome) {
    && 0 <= a < s.client.received <= |s.server.log| && k < |s.client.calls|
    && s.server.log[a] == Answer(k + 1, s.client.calls[k].methodId, outcome)
  }

  predicate CallNext(s: Sys, step: Step, t: Sys, k: nat) {
    && |s.client.calls| <= |t.client.calls|
    && (k < |s.client.calls| ==> OldCallNext(s, step, s.client.calls[k], t.client.calls[k], k))
    && (|s.client.calls| <= k ==> !Removes(s, step, k) && step != Fail(k) && step != Finish(k) && step != Send(k))
    && (|s.client.calls| <= k < |t.client.calls| ==>
         && k == |s.client.calls|
         && step == Begin(t.client.calls[k].methodId, t.client.calls[k].body)
         && t.client.calls[k] == Call(step.methodId, step.body, false, true, None, None, false))
  }

  predicate OldCallNext(s: Sys, step: Step, w: Call, x: Call, k: nat) {
    && x.methodId == w.methodId && x.body == w.body
    && (x.sent <==> w.sent || step == Send(k))
    && (x.pending <==> w.pending && !Removes(s, step, k))
    && x.result == (if w.result.Some? then w.result
                    else if step == Fail(k) then Some(Failure)
                    else if step == Finish(k) then w.completing
                    else None)
    && (step == Finish(k) ==> w.completing.Some? && x.completing == None)
    && (step != Finish(k) && !(TakesAnswer(s, step, k) && w.pending) ==> x.completing == w.completing)
    && (TakesAnswer(s, step, k) && w.pending ==>
         x.completing.Some? && AnswerRead(s, s.client.reader.value, k, x.completing.value))
    && (step.Cleanup? && step.k == k ==> w.result.Some?)
  }

  /** What it makes of the reader. */
  predicate ReaderNext(s: Sys, step: Step, t: Sys) {
    && s.server.log <= t.server.log
    && t.client.received == s.client.received + Reads(step)
    && t.client.reader == (if step.Read? then Found(s) else if step.Take? then None else s.client.reader)
    && (step.Read? ==> s.client.reader == None)
  }

  function Reads(step: Step): int {
    if step.Read? then 1 else 0
  }

  /** The reader stops at an answer to a pending call. */
  function Found(s: Sys): Option<nat> {
    if s.client.received >= |s.server.log| then None
    else
      var f := s.server.log[s.client.received];
      if f.Answer? && Issued(s.client.calls, f.id) && s.client.calls[f.id - 1].pending then Some(s.client.received)
      else None
  }

  lemma StepOnReader(s: Sys, step: Step)
    requires Enabled(s, step) && LogInv(s.client.calls, s.server)
    ensures ReaderNext(s, step, Apply(s, step))
  {
    if step.Read? && s.server.log[s.client.received].Answer? {
      assert AnswerOk(s.client.calls, s.server, s.client.received);
    }
  }

  lemma StepOnCall(s: Sys, step: Step, k: nat)
    requires Enabled(s, step) && LogInv(s.client.calls, s.server) && ClientInv(s.client, s.server)
    ensures CallNext(s, step, Apply(s, step), k)
  {
    if step.Take? {
      assert AnswerOk(s.client.calls, s.server, s.client.reader.value);
      TakeOnCall(s, k);
    } else {
      OthersOnCall(s, step, k);
    }
  }

  lemma TakeOnCall(s: Sys, k: nat)
    requires Enabled(s, Take) && AnswerOk(s.client.calls, s.server, s.client.reader.value)
    requires s.client.reader.value < s.client.received <= |s.server.log|
    ensures CallNext(s, Take, Apply(s, Take), k)
  {
  }

  lemma OthersOnCall(s: Sys, step: Step, k: nat)
    requires Enabled(s, step) && !step.Take?
    ensures CallNext(s, step, Apply(s, step), k)
  {
    if ClientStep(step) {
      ClientOnCall(s, step, k);
    }
  }

  lemma ClientOnCall(s: Sys, step: Step, k: nat)
    requires ClientStep(step) && Enabled(s, step) && !step.Take?
    ensures CallNext(s, step, Apply(s, step), k)
  {
  }

  ghost predicate CallHistory(states: seq<Sys>, steps: seq<Step>, k: nat) {
    && |states| == |steps| + 1 && states[0].client.calls == [] && states[0].client.received == 0
    && forall i :: 0 <= i < |steps| ==>
         CallNext(states[i], steps[i], states[i + 1], k) && ReaderNext(states[i], steps[i], states[i + 1])
  }

  lemma NextOnCall(states: seq<Sys>, steps: seq<Step>, i: nat, k: nat)
    requires Run(states, steps) && i < |steps|
    ensures CallNext(states[i], steps[i], states[i + 1], k) && ReaderNext(states[i], steps[i], states[i + 1])
  {
    Next(states, steps, i);
    StepOnCall(states[i], steps[i], k);
    StepOnReader(states[i], steps[i]);
  }

  lemma HasCallHistory(states: seq<Sys>, steps: seq<Step>, k: nat)
    requires Run(states, steps)
    ensures CallHistory(states, steps, k)
  {
    forall i | 0 <= i < |steps|
      ensures CallNext(states[i], steps[i], states[i + 1], k) && ReaderNext(states[i], steps[i], states[i + 1])
    {
      NextOnCall(states, steps, i, k);
    }
  }

  // ---------------------------------------------------------------------------
  // Calls and the pending table

  lemma {:induction false} BegunFollows(states: seq<Sys>, steps: seq<Step>, i: nat, k: nat) returns (j: nat)
    requires CallHistory(states, steps, k) && i < |states| && k < |states[i].client.calls|
    ensures j < i && |states[j].client.calls| == k
    ensures steps[j] == Begin(states[i].client.calls[k].methodId, states[i].client.calls[k].body)
  {
    assert CallNext(states[i - 1], steps[i - 1], states[i - 1 + 1], k);
    if k < |states[i - 1].client.calls| {
      j := BegunFollows(states, steps, i - 1, k);
    } else {
      j := i - 1;
    }
  }

  /** The k-th call is the one of the k-th `Begin`. */
  lemma CallWasBegun(states: seq<Sys>, steps: seq<Step>, i: nat, k: nat) returns (j: nat)
    requires Run(states, steps) && i < |states| && k < |states[i].client.calls|
    ensures j < i && |states[j].client.calls| == k
    ensures steps[j] == Begin(states[i].client.calls[k].methodId, states[i].client.calls[k].body)
  {
    HasCallHistory(states, steps, k);
    j := BegunFollows(states, steps, i, k);
  }

  ghost predicate NeverRemoved(states: seq<Sys>, steps: seq<Step>, i: nat, k: nat)
    requires i <= |steps| < |states|
  {
    forall j :: 0 <= j < i ==> !Removes(states[j], steps[j], k)
  }

  lemma {:induction false} PendingFollows(states: seq<Sys>, steps: seq<Step>, i: nat, k: nat)
    requires CallHistory(states, steps, k) && i < |states|
    ensures k < |states[i].client.calls| ==>
      (states[i].client.calls[k].pending <==> NeverRemoved(states, steps, i, k))
    ensures |states[i].client.calls| <= k ==> NeverRemoved(states, steps, i, k)
  {
    if i > 0 {
      PendingFollows(states, steps, i - 1, k);
      assert CallNext(states[i - 1], steps[i - 1], states[i - 1 + 1], k);
    }
  }

  /** A call is on the pending table from its beginning until it is taken off. */
  lemma PendingUntilRemoved(states: seq<Sys>, steps: seq<Step>, i: nat, k: nat)
    requires Run(states, steps) && i < |states| && k < |states[i].client.calls|
    ensures states[i].client.calls[k].pending <==> NeverRemoved(states, steps, i, k)
  {
    HasCallHistory(states, steps, k);
    PendingFollows(states, steps, i, k);
  }

  // ---------------------------------------------------------------------------
  // Frames on the way to the server

  /** What a step of the client puts on the wire. */
  predicate Posts(s: Sys, step: Step, f: ClientFrame) {
    || (step.Send? && step.k < |s.client.calls|
        && f == RequestFrame(step.k + 1, s.client.calls[step.k].methodId, s.client.calls[step.k].body))
    || (step.Cleanup? && step.cancel && f == CancelFrame(step.k + 1))
  }

  predicate OnWire(s: Sys, step: Step, t: Sys, f: ClientFrame) {
    f in t.toServer <==> (f in s.toServer && step != Lose(f) && step != Deliver(f)) || Posts(s, step, f)
  }

  ghost predicate StillOut(states: seq<Sys>, steps: seq<Step>, j: int, i: nat, f: ClientFrame)
    requires i <= |steps| < |states|
  {
    && 0 <= j < i && Posts(states[j], steps[j], f)
    && forall m :: j < m < i ==> steps[m] != Lose(f) && steps[m] != Deliver(f)
  }

  lemma StepOnWire(s: Sys, step: Step, f: ClientFrame)
    requires Enabled(s, step)
    ensures OnWire(s, step, Apply(s, step), f)
  {
  }

  lemma {:induction false} WireFollows(states: seq<Sys>, steps: seq<Step>, i: nat, f: ClientFrame)
    requires |states| == |steps| + 1 && i < |states| && states[0].toServer == {}
    requires forall k :: 0 <= k < |steps| ==> OnWire(states[k], steps[k], states[k + 1], f)
    ensures f in states[i].toServer <==> exists j :: StillOut(states, steps, j, i, f)
  {
    if i > 0 {
      WireFollows(states, steps, i - 1, f);
      assert OnWire(states[i - 1], steps[i - 1], states[i - 1 + 1], f);
      if f in states[i].toServer {
        if Posts(states[i - 1], steps[i - 1], f) {
          assert StillOut(states, steps, i - 1, i, f);
        } else {
          var j :| StillOut(states, steps, j, i - 1, f);
          assert StillOut(states, steps, j, i, f);
        }
      }
      if j :| StillOut(states, steps, j, i, f) {
        if j < i - 1 { assert StillOut(states, steps, j, i - 1, f); }
      }
    }
  }

  /** A frame is on its way if and only if the client posted it and since then it was neither
      lost nor delivered. */
  lemma OnTheWayIff(states: seq<Sys>, steps: seq<Step>, i: nat, f: ClientFrame)
    requires Run(states, steps) && i < |states|
    ensures f in states[i].toServer <==> exists j :: StillOut(states, steps, j, i, f)
  {
    forall k | 0 <= k < |steps| ensures OnWire(states[k], steps[k], states[k + 1], f) {
      StepOnWire(states[k], steps[k], f);
    }
    WireFollows(states, steps, i, f);
  }

  // ---------------------------------------------------------------------------
  // Results

  lemma {:induction false} ReadsFollow(states: seq<Sys>, steps: seq<Step>, i: nat)
    requires CallHistory(states, steps, 0) && i < |states|
    ensures states[i].client.received == Sum(steps[..i], Reads)
  {
    var received := (s: Sys) => s.client.received as int;
    forall k | 0 <= k < |steps| ensures received(states[k + 1]) == received(states[k]) + Reads(steps[k]) {
      assert ReaderNext(states[k], steps[k], states[k + 1]);
    }
    Accumulates(states, steps, received, Reads, i);
  }

  /** The reader takes the frames of the log one by one. */
  lemma ReadsInOrder(states: seq<Sys>, steps: seq<Step>, i: nat)
    requires Run(states, steps) && i < |states|
    ensures states[i].client.received == Sum(steps[..i], Reads)
  {
    HasCallHistory(states, steps, 0);
    ReadsFollow(states, steps, i);
  }

  ghost predicate WasAnswered(s: Sys, k: nat, outcome: Outcome) {
    exists a :: AnswerRead(s, a, k, outcome)
  }

  lemma StaysAnswered(s: Sys, step: Step, t: Sys, k: nat, outcome: Outcome)
    requires CallNext(s, step, t, k) && ReaderNext(s, step, t) && t.client.received <= |t.server.log|
    requires WasAnswered(s, k, outcome)
    ensures WasAnswered(t, k, outcome)
  {
    var a :| AnswerRead(s, a, k, outcome);
    assert AnswerRead(t, a, k, outcome);
  }

  ghost predicate Failed(steps: seq<Step>, i: nat, k: nat) {
    exists j :: 0 <= j < i && j < |steps| && steps[j] == Fail(k)
  }

  /** What a call has, and what it is about to get, is explained. */
  ghost predicate Explained(s: Sys, steps: seq<Step>, i: nat, k: nat) {
    k < |s.client.calls| ==>
      var call := s.client.calls[k];
      && (call.result.Some? ==>
           (Failed(steps, i, k) && call.result.value == Failure) || WasAnswered(s, k, call.result.value))
      && (call.completing.Some? ==> WasAnswered(s, k, call.completing.value))
  }

  lemma StaysExplained(s: Sys, steps: seq<Step>, i: nat, t: Sys, k: nat)
    requires 0 < i <= |steps| && Explained(s, steps, i - 1, k) && t.client.received <= |t.server.log|
    requires CallNext(s, steps[i - 1], t, k) && ReaderNext(s, steps[i - 1], t)
    ensures Explained(t, steps, i, k)
  {
    forall outcome | WasAnswered(s, k, outcome) ensures WasAnswered(t, k, outcome) {
      StaysAnswered(s, steps[i - 1], t, k, outcome);
    }
    assert Failed(steps, i - 1, k) ==> Failed(steps, i, k);
    if k < |s.client.calls| && TakesAnswer(s, steps[i - 1], k) && s.client.calls[k].pending {
      assert WasAnswered(s, k, t.client.calls[k].completing.value);
    }
  }

  lemma {:induction false} ExplainedFollows(states: seq<Sys>, steps: seq<Step>, i: nat, k: nat)
    requires CallHistory(states, steps, k) && i < |states|
    requires forall j :: 0 <= j < |states| ==> states[j].client.received <= |states[j].server.log|
    ensures Explained(states[i], steps, i, k)
  {
    if i > 0 {
      ExplainedFollows(states, steps, i - 1, k);
      assert CallNext(states[i - 1], steps[i - 1], states[i - 1 + 1], k);
      assert ReaderNext(states[i - 1], steps[i - 1], states[i - 1 + 1]);
      StaysExplained(states[i - 1], steps, i, states[i], k);
    }
  }

  lemma ReadsWithinLog(states: seq<Sys>, steps: seq<Step>, i: nat)
    requires Run(states, steps) && i < |states|
    ensures states[i].client.received <= |states[i].server.log|
  {
    RunInv(states, steps, i);
  }

  /** A result is a failure of the call's own (timeout, cancel, lost connection), or the
      outcome of an answer to this very call that the client has read. */
  lemma ResultExplained(states: seq<Sys>, steps: seq<Step>, i: nat, k: nat)
    requires Run(states, steps) && i < |states| && k < |states[i].client.calls|
    requires states[i].client.calls[k].result.Some?
    ensures var call, log := states[i].client.calls[k], states[i].server.log;
      || (call.result.value == Failure && exists j :: 0 <= j < i && steps[j] == Fail(k))
      || exists a :: 0 <= a < states[i].client.received <= |log| &&
           log[a] == Answer(k + 1, call.methodId, call.result.value)
  {
    HasCallHistory(states, steps, k);
    forall j | 0 <= j < |states| ensures states[j].client.received <= |states[j].server.log| {
      ReadsWithinLog(states, steps, j);
    }
    ExplainedFollows(states, steps, i, k);
    ReadOut(states[i], steps, i, k);
  }

  lemma ReadOut(s: Sys, steps: seq<Step>, i: nat, k: nat)
    requires Explained(s, steps, i, k) && k < |s.client.calls| && s.client.calls[k].result.Some?
    ensures var call, log := s.client.calls[k], s.server.log;
      || (call.result.value == Failure && exists j :: 0 <= j < i && j < |steps| && steps[j] == Fail(k))
      || exists a :: 0 <= a < s.client.received <= |log| && log[a] == Answer(k + 1, call.methodId, call.result.value)
  {
    var outcome := s.client.calls[k].result.value;
    if WasAnswered(s, k, outcome) {
      var a :| AnswerRead(s, a, k, outcome);
    }
  }

  predicate Completes(step: Step, k: nat) {
    step == Fail(k) || step == Finish(k)
  }

  lemma {:induction false} CompleteFollows(states: seq<Sys>, steps: seq<Step>, i: nat, k: nat)
    requires CallHistory(states, steps, k) && i < |states|
    ensures k < |states[i].client.calls| ==>
      (states[i].client.calls[k].result.Some? <==> exists j :: 0 <= j < i && Completes(steps[j], k))
    ensures |states[i].client.calls| <= k ==> forall j :: 0 <= j < i ==> !Completes(steps[j], k)
  {
    if i > 0 {
      CompleteFollows(states, steps, i - 1, k);
      assert CallNext(states[i - 1], steps[i - 1], states[i - 1 + 1], k);
    }
  }

  /** A call is complete if and only if it has failed or an answer was completed. */
  lemma CompleteIff(states: seq<Sys>, steps: seq<Step>, i: nat, k: nat)
    requires Run(states, steps) && i < |states| && k < |states[i].client.calls|
    ensures states[i].client.calls[k].result.Some? <==> exists j :: 0 <= j < i && Completes(steps[j], k)
  {
    HasCallHistory(states, steps, k);
    CompleteFollows(states, steps, i, k);
  }

  // ---------------------------------------------------------------------------
  // An answer reaches its call

  /** The call waits for its answer. */
  predicate Waits(s: Sys, k: nat) {
    && k < |s.client.calls| && s.client.calls[k].pending && s.client.calls[k].completing.None?
    && s.client.calls[k].result.None?
  }

  /** The reader is at an answer to a call that waits for it. */
  predicate Coming(s: Sys, k: nat, outcome: Outcome) {
    && AtAnswer(s.client, s.server.log) && s.server.log[s.client.reader.value].id == k + 1
    && s.server.log[s.client.reader.value].outcome == outcome && Waits(s, k)
  }

  /** The reader has taken the call off the table and is about to complete it. */
  predicate Taken(s: Sys, k: nat, outcome: Outcome) {
    && k < |s.client.calls| && s.client.calls[k].completing == Some(outcome) && s.client.calls[k].result.None?
    && !s.client.calls[k].pending
  }

  lemma ReadBrings(s: Sys, t: Sys, k: nat)
    requires CallNext(s, Read, t, k) && ReaderNext(s, Read, t)
    requires Waits(s, k) && AnswerAt(s.server.log, s.client.received, k + 1)
    ensures Coming(t, k, s.server.log[s.client.received].outcome)
  {
    assert t.server.log[s.client.received] == s.server.log[s.client.received];
  }

  lemma ComingStays(s: Sys, step: Step, t: Sys, k: nat, outcome: Outcome)
    requires CallNext(s, step, t, k) && ReaderNext(s, step, t)
    requires Coming(s, k, outcome) && step != Fail(k) && !step.Take?
    ensures Coming(t, k, outcome)
  {
    assert t.server.log[s.client.reader.value] == s.server.log[s.client.reader.value];
  }

  lemma TakeTakes(s: Sys, t: Sys, k: nat, outcome: Outcome)
    requires CallNext(s, Take, t, k) && Coming(s, k, outcome)
    ensures Taken(t, k, outcome)
  {
  }

  lemma TakenStays(s: Sys, step: Step, t: Sys, k: nat, outcome: Outcome)
    requires CallNext(s, step, t, k) && Taken(s, k, outcome) && !Completes(step, k)
    ensures Taken(t, k, outcome)
  {
  }

  lemma {:induction false} ComingUntil(states: seq<Sys>, steps: seq<Step>, j: nat, i: nat, k: nat, outcome: Outcome)
    requires CallHistory(states, steps, k) && j <= i < |states| && Coming(states[j], k, outcome)
    requires forall m :: j <= m < i ==> steps[m] != Fail(k) && !steps[m].Take?
    ensures Coming(states[i], k, outcome)
    decreases i
  {
    if j < i {
      ComingUntil(states, steps, j, i - 1, k, outcome);
      assert CallNext(states[i - 1], steps[i - 1], states[i - 1 + 1], k);
      assert ReaderNext(states[i - 1], steps[i - 1], states[i - 1 + 1]);
      ComingStays(states[i - 1], steps[i - 1], states[i], k, outcome);
    }
  }

  lemma {:induction false} TakenUntil(states: seq<Sys>, steps: seq<Step>, j: nat, i: nat, k: nat, outcome: Outcome)
    requires CallHistory(states, steps, k) && j <= i < |states| && Taken(states[j], k, outcome)
    requires forall m :: j <= m < i ==> !Completes(steps[m], k)
    ensures Taken(states[i], k, outcome)
    decreases i
  {
    if j < i {
      TakenUntil(states, steps, j, i - 1, k, outcome);
      assert CallNext(states[i - 1], steps[i - 1], states[i - 1 + 1], k);
      TakenStays(states[i - 1], steps[i - 1], states[i], k, outcome);
    }
  }

  lemma {:induction false} UntakenFollows(states: seq<Sys>, steps: seq<Step>, i: nat, k: nat)
    requires CallHistory(states, steps, k) && i < |states|
    ensures k < |states[i].client.calls| && states[i].client.calls[k].pending ==>
      states[i].client.calls[k].completing.None?
  {
    if i > 0 {
      UntakenFollows(states, steps, i - 1, k);
      assert CallNext(states[i - 1], steps[i - 1], states[i - 1 + 1], k);
    }
  }

  /** An answer read for a call that waits for it is what the call completes with, whatever
      else happens meanwhile, unless the call fails first. */
  lemma AnswerReachesCall(states: seq<Sys>, steps: seq<Step>, r: nat, t: nat, f: nat, k: nat)
    requires Run(states, steps) && r < t < f < |steps|
    requires steps[r] == Read && AnswerAt(states[r].server.log, states[r].client.received, k + 1)
    requires k < |states[r].client.calls| && states[r].client.calls[k].pending
    requires states[r].client.calls[k].result.None?
    requires steps[t] == Take && forall j :: r < j < t ==> !steps[j].Take?
    requires steps[f] == Finish(k) && forall j :: t < j < f ==> steps[j] != Finish(k)
    requires forall j :: r < j < f ==> steps[j] != Fail(k)
    ensures k < |states[f + 1].client.calls|
    ensures states[f + 1].client.calls[k].result == Some(states[r].server.log[states[r].client.received].outcome)
  {
    HasCallHistory(states, steps, k);
    AnswerFollows(states, steps, r, t, f, k);
  }

  lemma AnswerFollows(states: seq<Sys>, steps: seq<Step>, r: nat, t: nat, f: nat, k: nat)
    requires CallHistory(states, steps, k) && r < t < f < |steps|
    requires steps[r] == Read && AnswerAt(states[r].server.log, states[r].client.received, k + 1)
    requires k < |states[r].client.calls| && states[r].client.calls[k].pending
    requires states[r].client.calls[k].result.None?
    requires steps[t] == Take && forall j :: r < j < t ==> !steps[j].Take?
    requires steps[f] == Finish(k) && forall j :: t < j < f ==> steps[j] != Finish(k)
    requires forall j :: r < j < f ==> steps[j] != Fail(k)
    ensures k < |states[f + 1].client.calls|
    ensures states[f + 1].client.calls[k].result == Some(states[r].server.log[states[r].client.received].outcome)
  {
    var outcome := states[r].server.log[states[r].client.received].outcome;
    UntakenFollows(states, steps, r, k);
    ReadBrings(states[r], states[r + 1], k);
    ComingUntil(states, steps, r + 1, t, k, outcome);
    TakeTakes(states[t], states[t + 1], k, outcome);
    TakenUntil(states, steps, t + 1, f, k, outcome);
    assert CallNext(states[f], steps[f], states[f + 1], k);
  }

  /** And nothing stops the client from getting there: after the read the next two steps are
      open to it. */
  lemma AnswerCanBeDelivered(states: seq<Sys>, steps: seq<Step>, i: nat, k: nat)
    requires Run(states, steps) && i < |states| && Enabled(states[i], Read)
    requires k < |states[i].client.calls| && AnswerAt(states[i].server.log, states[i].client.received, k + 1)
    requires states[i].client.calls[k].pending && states[i].client.calls[k].result.None?
    ensures var read := Apply(states[i], Read);
      && Enabled(read, Take)
      && Enabled(Apply(read, Take), Finish(k))
  {
    HasCallHistory(states, steps, k);
    UntakenFollows(states, steps, i, k);
    LogHolds(states, steps, i);
    ReadThenTake(states[i], k);
  }

  lemma LogHolds(states: seq<Sys>, steps: seq<Step>, i: nat)
    requires Run(states, steps) && i < |states|
    ensures LogInv(states[i].client.calls, states[i].server)
  {
    RunInv(states, steps, i);
  }

  lemma ReadThenTake(s: Sys, k: nat)
    requires LogInv(s.client.calls, s.server) && Enabled(s, Read)
    requires Waits(s, k) && AnswerAt(s.server.log, s.client.received, k + 1)
    ensures Enabled(Apply(s, Read), Take) && Enabled(Apply(Apply(s, Read), Take), Finish(k))
  {
    StepOnReader(s, Read);
  }

  // ---------------------------------------------------------------------------
  // Admission

  /** The step admits this request. */
  predicate Admits(s: Sys, step: Step, id: nat) {
    && step.Deliver? && step.f.RequestFrame? && step.f.id == id
    && !s.server.draining && |s.server.holders| < s.server.maxInFlight
  }

  /** A request that arrives is admitted if and only if the server is not draining and has a
      permit left; otherwise it is answered with a failure, and nothing else changes. */
  lemma AdmittedIffRoom(states: seq<Sys>, steps: seq<Step>, i: nat)
    requires Run(states, steps) && i < |steps| && steps[i].Deliver? && steps[i].f.RequestFrame?
    ensures var v, v', f := states[i].server, states[i + 1].server, steps[i].f;
      && f.id !in v.tasks && f.id !in v.active
      && if !v.draining && |v.holders| < v.maxInFlight then
           && v'.active == v.active + {f.id} && v'.holders == v.holders + {f.id} && v'.log == v.log
           && v'.tasks == v.tasks[f.id := Task(f.methodId, f.body, Running, false, None, None)]
         else
           && v'.active == v.active && v'.holders == v.holders && v'.tasks == v.tasks
           && v'.log == v.log + [Answer(f.id, f.methodId, Failure)]
  {
    Next(states, steps, i);
    assert FrameOk(states[i].client.calls, states[i].server, steps[i].f);
  }

  // ---------------------------------------------------------------------------
  // The server's tables

  predicate TakesOff(step: Step, id: nat) {
    step == Remove(id) || step == Deliver(CancelFrame(id)) || step == Epilogue
  }

  /** What a step makes of one request on the two tables. */
  predicate OnTables(s: Sys, step: Step, t: Sys, id: nat) {
    && (id in t.server.active <==> (id in s.server.active && !TakesOff(step, id)) || Admits(s, step, id))
    && (id in t.server.holders <==> (id in s.server.holders && step != End(id)) || Admits(s, step, id))
  }

  /** What it makes of its task: admitted, handled, or left with its request and output. */
  predicate TaskNext(s: Sys, step: Step, t: Sys, id: nat) {
    && (id in t.server.tasks <==> id in s.server.tasks || Admits(s, step, id))
    && (id in t.server.tasks ==>
         var task := t.server.tasks[id];
         if id in s.server.tasks then
           var was := s.server.tasks[id];
           && !Admits(s, step, id) && task.methodId == was.methodId && task.body == was.body
           && task.output == (if step.Handle? && step.id == id then Some(step.output) else was.output)
           && (task.stage == Handled ==> was.stage == Handled || (step.Handle? && step.id == id))
         else
           && step.f.methodId == task.methodId && step.f.body == task.body
           && task.output == None && task.stage == Running)
    && (step.Handle? ==> step.id in s.server.tasks)
  }

  /** What it adds to the log: a task's own output or, degraded, a failure; or a refusal. */
  predicate Answers(s: Sys, step: Step, f: ServerFrame)
    requires f.Answer?
  {
    || (step.Respond? && step.id == f.id && f.id in s.server.tasks
        && f.methodId == s.server.tasks[f.id].methodId
        && (if step.degraded then f.outcome == Failure else s.server.tasks[f.id].output == Some(f.outcome)))
    || (step.Deliver? && step.f.RequestFrame? && step.f.id == f.id && step.f.methodId == f.methodId
        && f.outcome == Failure && !Admits(s, step, f.id))
  }

  predicate LogNext(s: Sys, step: Step, t: Sys) {
    var log, log' := s.server.log, t.server.log;
    && log <= log' && |log'| <= |log| + 1
    && (|log'| > |log| && log'[|log|].Answer? ==> Answers(s, step, log'[|log|]))
    && (step.Respond? ==> |log'| == |log| + 1 && log'[|log|].Answer?)
  }

  predicate ServerNext(s: Sys, step: Step, t: Sys, id: nat) {
    OnTables(s, step, t, id) && TaskNext(s, step, t, id) && LogNext(s, step, t)
  }

  lemma DeliverNext(s: Sys, step: Step, id: nat)
    requires Enabled(s, step) && step.Deliver? && FrameOk(s.client.calls, s.server, step.f)
    requires s.server.active <= s.server.tasks.Keys && s.server.holders <= s.server.tasks.Keys
    ensures ServerNext(s, step, Apply(s, step), id)
  {
  }

  lemma OthersOnTables(s: Sys, step: Step, id: nat)
    requires Enabled(s, step) && !step.Deliver?
    ensures OnTables(s, step, Apply(s, step), id)
  {
  }

  lemma OthersOnTask(s: Sys, step: Step, id: nat)
    requires Enabled(s, step) && !step.Deliver?
    ensures TaskNext(s, step, Apply(s, step), id) && LogNext(s, step, Apply(s, step))
  {
  }

  lemma NextOnServer(states: seq<Sys>, steps: seq<Step>, i: nat, id: nat)
    requires Run(states, steps) && i < |steps|
    ensures ServerNext(states[i], steps[i], states[i + 1], id)
  {
    Next(states, steps, i);
    if steps[i].Deliver? {
      DeliverNext(states[i], steps[i], id);
    } else {
      OthersOnTables(states[i], steps[i], id);
      OthersOnTask(states[i], steps[i], id);
    }
  }

  ghost predicate ServerHistory(states: seq<Sys>, steps: seq<Step>, id: nat) {
    && |states| == |steps| + 1
    && states[0].server.active == {} && states[0].server.holders == {} && states[0].server.tasks == map[]
    && states[0].server.log == []
    && forall i :: 0 <= i < |steps| ==> ServerNext(states[i], steps[i], states[i + 1], id)
  }

  lemma HasServerHistory(states: seq<Sys>, steps: seq<Step>, id: nat)
    requires Run(states, steps)
    ensures ServerHistory(states, steps, id)
  {
    forall i | 0 <= i < |steps| ensures ServerNext(states[i], steps[i], states[i + 1], id) {
      NextOnServer(states, steps, i, id);
    }
  }

  ghost predicate AdmittedSince(states: seq<Sys>, steps: seq<Step>, j: int, i: nat, id: nat)
    requires i <= |steps| < |states|
  {
    0 <= j < i && Admits(states[j], steps[j], id) && forall m :: j < m < i ==> !TakesOff(steps[m], id)
  }

  ghost predicate HeldSince(states: seq<Sys>, steps: seq<Step>, j: int, i: nat, id: nat)
    requires i <= |steps| < |states|
  {
    0 <= j < i && Admits(states[j], steps[j], id) && forall m :: j < m < i ==> steps[m] != End(id)
  }

  lemma {:induction false} ActiveFollows(states: seq<Sys>, steps: seq<Step>, i: nat, id: nat)
    requires ServerHistory(states, steps, id) && i < |states|
    ensures id in states[i].server.active <==> exists j :: AdmittedSince(states, steps, j, i, id)
  {
    if i > 0 {
      ActiveFollows(states, steps, i - 1, id);
      assert ServerNext(states[i - 1], steps[i - 1], states[i - 1 + 1], id);
      if id in states[i].server.active {
        if Admits(states[i - 1], steps[i - 1], id) {
          assert AdmittedSince(states, steps, i - 1, i, id);
        } else {
          var j :| AdmittedSince(states, steps, j, i - 1, id);
          assert AdmittedSince(states, steps, j, i, id);
        }
      }
      if j :| AdmittedSince(states, steps, j, i, id) {
        if j < i - 1 { assert AdmittedSince(states, steps, j, i - 1, id); }
      }
    }
  }

  lemma {:induction false} HoldersFollow(states: seq<Sys>, steps: seq<Step>, i: nat, id: nat)
    requires ServerHistory(states, steps, id) && i < |states|
    ensures id in states[i].server.holders <==> exists j :: HeldSince(states, steps, j, i, id)
  {
    if i > 0 {
      HoldersFollow(states, steps, i - 1, id);
      assert ServerNext(states[i - 1], steps[i - 1], states[i - 1 + 1], id);
      if id in states[i].server.holders {
        if Admits(states[i - 1], steps[i - 1], id) {
          assert HeldSince(states, steps, i - 1, i, id);
        } else {
          var j :| HeldSince(states, steps, j, i - 1, id);
          assert HeldSince(states, steps, j, i, id);
        }
      }
      if j :| HeldSince(states, steps, j, i, id) {
        if j < i - 1 { assert HeldSince(states, steps, j, i - 1, id); }
      }
    }
  }

  /** A request is on the active table from its admission until its task removes it, a cancel
      takes it off or the connection ends; its permit is held until its task is over. */
  lemma OnTableIff(states: seq<Sys>, steps: seq<Step>, i: nat, id: nat)
    requires Run(states, steps) && i < |states|
    ensures id in states[i].server.active <==> exists j :: AdmittedSince(states, steps, j, i, id)
    ensures id in states[i].server.holders <==> exists j :: HeldSince(states, steps, j, i, id)
  {
    HasServerHistory(states, steps, id);
    ActiveFollows(states, steps, i, id);
    HoldersFollow(states, steps, i, id);
  }

  /** A task that holds a permit is never stuck: its next step is open to it, and an aborted one
      can end at once. */
  lemma TaskGoesOn(states: seq<Sys>, steps: seq<Step>, i: nat, id: nat, output: Outcome)
    requires Run(states, steps) && i < |states| && id in states[i].server.holders
    ensures id in states[i].server.tasks
    ensures var s, task := states[i], states[i].server.tasks[id];
      && (task.aborted ==> Enabled(s, End(id)))
      && match task.stage
         case Running => Enabled(s, Handle(id, output))
         case Handled => Enabled(s, Respond(id, false))
         case Answered => Enabled(s, Remove(id))
         case Removed => Enabled(s, End(id))
         case Ended => false
  {
    RunInv(states, steps, i);
    assert TaskOk(states[i].client.calls, states[i].server, id);
    HasServerHistory(states, steps, id);
    HandledHasOutput(states, steps, i, id);
  }

  lemma {:induction false} HandledHasOutput(states: seq<Sys>, steps: seq<Step>, i: nat, id: nat)
    requires ServerHistory(states, steps, id) && i < |states|
    ensures id in states[i].server.tasks && states[i].server.tasks[id].stage == Handled ==>
      states[i].server.tasks[id].output.Some?
  {
    if i > 0 {
      HandledHasOutput(states, steps, i - 1, id);
      assert ServerNext(states[i - 1], steps[i - 1], states[i - 1 + 1], id);
    }
  }

  lemma {:induction false} OutputFollows(states: seq<Sys>, steps: seq<Step>, i: nat, id: nat, output: Outcome)
    returns (j: nat)
    requires ServerHistory(states, steps, id) && i < |states| && id in states[i].server.tasks
    requires states[i].server.tasks[id].output == Some(output)
    ensures j < i && steps[j] == Handle(id, output) && id in states[j].server.tasks
  {
    assert i > 0;
    assert ServerNext(states[i - 1], steps[i - 1], states[i - 1 + 1], id);
    if steps[i - 1] == Handle(id, output) {
      j := i - 1;
    } else {
      j := OutputFollows(states, steps, i - 1, id, output);
    }
  }

  lemma {:induction false} DeliveredFollows(states: seq<Sys>, steps: seq<Step>, i: nat, id: nat) returns (j: nat)
    requires ServerHistory(states, steps, id) && i < |states| && id in states[i].server.tasks
    ensures j < i
    ensures steps[j] == Deliver(RequestFrame(id, states[i].server.tasks[id].methodId, states[i].server.tasks[id].body))
  {
    assert i > 0;
    assert ServerNext(states[i - 1], steps[i - 1], states[i - 1 + 1], id);
    if id in states[i - 1].server.tasks {
      j := DeliveredFollows(states, steps, i - 1, id);
    } else {
      j := i - 1;
    }
  }

  lemma {:induction false} AnswerQueued(states: seq<Sys>, steps: seq<Step>, i: nat, a: nat) returns (j: nat)
    requires ServerHistory(states, steps, 0) && i < |states|
    requires a < |states[i].server.log| && states[i].server.log[a].Answer?
    ensures j < i && |states[j].server.log| == a && Answers(states[j], steps[j], states[i].server.log[a])
  {
    assert i > 0;
    assert ServerNext(states[i - 1], steps[i - 1], states[i - 1 + 1], 0);
    if a < |states[i - 1].server.log| {
      j := AnswerQueued(states, steps, i - 1, a);
    } else {
      j := i - 1;
    }
  }

  /** A task's output is what its handler returned. */
  lemma OutputWasHandled(states: seq<Sys>, steps: seq<Step>, i: nat, id: nat) returns (j: nat)
    requires Run(states, steps) && i < |states| && id in states[i].server.tasks
    requires states[i].server.tasks[id].output.Some?
    ensures j < i && steps[j] == Handle(id, states[i].server.tasks[id].output.value) && id in states[j].server.tasks
  {
    HasServerHistory(states, steps, id);
    j := OutputFollows(states, steps, i, id, states[i].server.tasks[id].output.value);
  }

  /** A task works on a request that was delivered. */
  lemma TaskWasDelivered(states: seq<Sys>, steps: seq<Step>, i: nat, id: nat) returns (j: nat)
    requires Run(states, steps) && i < |states| && id in states[i].server.tasks
    ensures j < i
    ensures steps[j] == Deliver(RequestFrame(id, states[i].server.tasks[id].methodId, states[i].server.tasks[id].body))
  {
    HasServerHistory(states, steps, id);
    j := DeliveredFollows(states, steps, i, id);
  }

  /** An answer was queued by the step that found the log at its length: by its task with the
      task's own output, as a failure in its place, or as a refusal. */
  lemma AnswerWasQueued(states: seq<Sys>, steps: seq<Step>, i: nat, a: nat) returns (j: nat)
    requires Run(states, steps) && i < |states| && a < |states[i].server.log| && states[i].server.log[a].Answer?
    ensures j < i && |states[j].server.log| == a && Answers(states[j], steps[j], states[i].server.log[a])
  {
    HasServerHistory(states, steps, 0);
    j := AnswerQueued(states, steps, i, a);
  }

  // ---------------------------------------------------------------------------
  // The whole way of a success

  /** A delivered request is the call's own, and the call was begun before. */
  lemma DeliveredWasBegun(states: seq<Sys>, steps: seq<Step>, i: nat, k: nat) returns (j: nat)
    requires Run(states, steps) && i < |steps|
    requires steps[i].Deliver? && steps[i].f.RequestFrame? && steps[i].f.id == k + 1
    ensures j < i && |states[j].client.calls| == k && steps[j] == Begin(steps[i].f.methodId, steps[i].f.body)
    ensures k < |states[i].client.calls| && steps[i].f.methodId == states[i].client.calls[k].methodId
    ensures steps[i].f.body == states[i].client.calls[k].body
  {
    RunInv(states, steps, i);
    assert FrameOk(states[i].client.calls, states[i].server, steps[i].f);
    j := CallWasBegun(states, steps, i, k);
  }

  lemma {:induction false} RequestStays(states: seq<Sys>, steps: seq<Step>, j: nat, i: nat, k: nat)
    requires CallHistory(states, steps, k) && j <= i < |states| && k < |states[j].client.calls|
    ensures k < |states[i].client.calls|
    ensures states[i].client.calls[k].methodId == states[j].client.calls[k].methodId
    ensures states[i].client.calls[k].body == states[j].client.calls[k].body
    decreases i
  {
    if j < i {
      RequestStays(states, steps, j, i - 1, k);
      assert CallNext(states[i - 1], steps[i - 1], states[i - 1 + 1], k);
    }
  }

  lemma SuccessWasAnswered(states: seq<Sys>, steps: seq<Step>, i: nat, k: nat) returns (j: nat)
    requires Run(states, steps) && i < |states| && k < |states[i].client.calls|
    requires states[i].client.calls[k].result.Some? && states[i].client.calls[k].result.value.Success?
    ensures j < i && steps[j] == Respond(k + 1, false) && k + 1 in states[j].server.tasks
    ensures states[j].server.tasks[k + 1].output == states[i].client.calls[k].result
  {
    var call := states[i].client.calls[k];
    ResultExplained(states, steps, i, k);
    var a :| 0 <= a < |states[i].server.log| &&
      states[i].server.log[a] == Answer(k + 1, call.methodId, call.result.value);
    j := AnswerWasQueued(states, steps, i, a);
  }

  /** A success was begun, delivered as it was begun, handled, answered with the handler's own
      output, and read, in this order. */
  lemma SuccessCameFromHandler(states: seq<Sys>, steps: seq<Step>, i: nat, k: nat)
    returns (begun: nat, delivered: nat, handled: nat, answered: nat)
    requires Run(states, steps) && i < |states| && k < |states[i].client.calls|
    requires states[i].client.calls[k].result.Some? && states[i].client.calls[k].result.value.Success?
    ensures begun < delivered < handled < answered < i && |states[begun].client.calls| == k
    ensures var call := states[i].client.calls[k];
      && steps[begun] == Begin(call.methodId, call.body)
      && steps[delivered] == Deliver(RequestFrame(k + 1, call.methodId, call.body))
      && steps[handled] == Handle(k + 1, call.result.value)
      && steps[answered] == Respond(k + 1, false)
  {
    answered := SuccessWasAnswered(states, steps, i, k);
    handled := OutputWasHandled(states, steps, answered, k + 1);
    delivered := TaskWasDelivered(states, steps, handled, k + 1);
    begun := DeliveredWasBegun(states, steps, delivered, k);
    HasCallHistory(states, steps, k);
    RequestStays(states, steps, delivered, i, k);
  }
}
