/** Draining a connection: GOAWAY, admission and the graceful GOODBYE, over every run. */
module ConnectionDrain {
  import opened Common
  import opened Connection
  import opened ConnectionRuns

  /** Only calls the client has given up are cancelled, and until the loop stops only
      cancelled tasks are aborted. */
  ghost predicate CancelInv(s: Sys) {
    && (forall f :: f in s.toServer && f.CancelFrame? ==>
         Issued(s.client.calls, f.id) && s.client.calls[f.id - 1].result.Some?)
    && (s.server.loop != Stopped ==> forall id :: id in s.server.tasks && s.server.tasks[id].aborted ==>
         GivenUp(s.client.calls, id))
  }

  predicate GivenUp(calls: seq<Call>, id: nat) {
    Issued(calls, id) && calls[id - 1].result.Some?
  }

  /** Before the i-th frame its answer was queued, or the client had given up on it. */
  predicate Settled(calls: seq<Call>, v: Server, id: nat, i: nat)
    requires id in v.tasks
  {
    GivenUp(calls, id) || (v.tasks[id].answeredAt.Some? && v.tasks[id].answeredAt.value < i)
  }

  predicate GoAwayOk(v: Server) {
    && (v.goAwayAt.Some? ==> v.goAwayAt.value < |v.log| && v.log[v.goAwayAt.value].GoAway?)
    && (forall i :: 0 <= i < |v.log| && v.log[i].GoAway? ==> v.goAwayAt == Some(i))
    && (v.loop.SendingGoAway? ==> v.draining && v.goAwayAt == None)
    && (v.goAwayAt.Some? ==> v.draining)
    && (v.loop == Checking || v.loop == Parting(true) || (v.draining && v.loop == Serving) ==> v.goAwayAt.Some?)
  }

  ghost predicate GoodbyeOk(calls: seq<Call>, v: Server) {
    && (v.loop == Parting(true) ==> v.active == {})
    && forall i :: 0 <= i < |v.log| && v.log[i] == Goodbye(true) ==>
         && v.loop == Stopped && v.goAwayAt.Some? && v.goAwayAt.value < i
         && forall id :: id in v.tasks ==> Settled(calls, v, id, i)
  }

  ghost predicate DrainInv(s: Sys) {
    CancelInv(s) && GoAwayOk(s.server) && GoodbyeOk(s.client.calls, s.server)
  }

  lemma CancelsStay(s: Sys, step: Step)
    requires CancelInv(s) && Enabled(s, step)
    ensures var s' := Apply(s, step);
      forall f :: f in s'.toServer && f.CancelFrame? ==> GivenUp(s'.client.calls, f.id)
  {
    StepKeepsResults(s, step);
  }

  /** A task is aborted by a cancel or by the loop's end. */
  lemma AbortedBy(v: Server, step: Step)
    requires !ClientStep(step) && ServerEnabled(v, step)
    ensures var v' := ServerAfter(v, step);
      forall id :: id in v'.tasks && v'.tasks[id].aborted ==>
        || (id in v.tasks && v.tasks[id].aborted)
        || (step.Deliver? && step.f == CancelFrame(id))
        || step.Epilogue?
  {
  }

  lemma AbortsStay(s: Sys, step: Step)
    requires CancelInv(s) && Enabled(s, step)
    ensures var s' := Apply(s, step);
      s'.server.loop != Stopped ==>
        forall id :: id in s'.server.tasks && s'.server.tasks[id].aborted ==> GivenUp(s'.client.calls, id)
  {
    if ClientStep(step) {
      StepKeepsResults(s, step);
    } else {
      AbortedBy(s.server, step);
      StoppedStays(s.server, step);
    }
  }

  lemma StoppedStays(v: Server, step: Step)
    requires !ClientStep(step) && ServerEnabled(v, step)
    ensures v.loop == Stopped ==> ServerAfter(v, step).loop == Stopped && !step.Deliver?
  {
  }

  lemma GoAwayStays(s: Sys, step: Step)
    requires GoAwayOk(s.server) && Enabled(s, step)
    ensures GoAwayOk(Apply(s, step).server)
  {
  }

  /** Where a task's answer is in the log does not change. */
  lemma AnswersStay(calls: seq<Call>, v: Server, step: Step)
    requires TableInv(calls, v) && !ClientStep(step) && ServerEnabled(v, step) && !step.Deliver?
    ensures var v' := ServerAfter(v, step);
      && v'.tasks.Keys == v.tasks.Keys && v'.active <= v.active
      && forall id :: id in v.tasks && v.tasks[id].answeredAt.Some? ==>
           v'.tasks[id].answeredAt == v.tasks[id].answeredAt
  {
    if step.Respond? {
      assert TaskOk(calls, v, step.id);
    }
  }

  /** When the server parts gracefully, every task has answered or was given up. */
  lemma PartingSettles(s: Sys)
    requires TableInv(s.client.calls, s.server) && CancelInv(s) && s.server.loop == Parting(true)
    requires s.server.active == {}
    ensures forall id :: id in s.server.tasks ==> Settled(s.client.calls, s.server, id, |s.server.log|)
  {
    forall id | id in s.server.tasks ensures Settled(s.client.calls, s.server, id, |s.server.log|) {
      assert TaskOk(s.client.calls, s.server, id);
    }
  }

  lemma ClientKeepsGoodbye(s: Sys, step: Step)
    requires GoodbyeOk(s.client.calls, s.server) && Enabled(s, step) && ClientStep(step)
    ensures GoodbyeOk(Apply(s, step).client.calls, s.server)
  {
    var calls' := Apply(s, step).client.calls;
    StepKeepsResults(s, step);
    forall i, id | 0 <= i < |s.server.log| && s.server.log[i] == Goodbye(true) && id in s.server.tasks
      ensures Settled(calls', s.server, id, i)
    {
      assert Settled(s.client.calls, s.server, id, i);
    }
  }

  lemma DeliverKeepsGoodbye(calls: seq<Call>, v: Server, step: Step)
    requires GoodbyeOk(calls, v) && step.Deliver? && ServerEnabled(v, step)
    ensures GoodbyeOk(calls, ServerAfter(v, step))
  {
  }

  lemma ServerKeepsGoodbye(s: Sys, step: Step)
    requires Inv(s) && DrainInv(s) && Enabled(s, step) && !ClientStep(step) && !step.Deliver?
    ensures GoodbyeOk(s.client.calls, ServerAfter(s.server, step))
  {
    var calls, v := s.client.calls, s.server;
    var v' := ServerAfter(v, step);
    AnswersStay(calls, v, step);
    StoppedStays(v, step);
    if v.loop == Parting(true) && step.Part? {
      PartingSettles(s);
    }
    forall i | 0 <= i < |v'.log| && v'.log[i] == Goodbye(true)
      ensures v'.loop == Stopped && v'.goAwayAt.Some? && v'.goAwayAt.value < i
      ensures forall id :: id in v'.tasks ==> Settled(calls, v', id, i)
    {
      GoodbyeComes(v, step, i);
      forall id | id in v'.tasks ensures Settled(calls, v', id, i) {
        assert Settled(calls, v, id, i);
      }
    }
  }

  /** A graceful GOODBYE in the log was there before or is queued by this step. */
  lemma GoodbyeComes(v: Server, step: Step, i: nat)
    requires GoAwayOk(v) && !ClientStep(step) && ServerEnabled(v, step) && !step.Deliver?
    requires i < |ServerAfter(v, step).log| && ServerAfter(v, step).log[i] == Goodbye(true)
    ensures (i < |v.log| && v.log[i] == Goodbye(true)) || (i == |v.log| && step.Part? && v.loop == Parting(true))
    ensures step.SendGoAway? || ServerAfter(v, step).goAwayAt == v.goAwayAt
  {
  }

  lemma DrainStays(s: Sys, step: Step)
    requires Inv(s) && DrainInv(s) && Enabled(s, step)
    ensures DrainInv(Apply(s, step))
  {
    CancelsStay(s, step);
    AbortsStay(s, step);
    GoAwayStays(s, step);
    if ClientStep(step) {
      ClientKeepsGoodbye(s, step);
    } else if step.Deliver? {
      DeliverKeepsGoodbye(s.client.calls, s.server, step);
    } else {
      ServerKeepsGoodbye(s, step);
    }
  }

  lemma {:induction false} RunDrains(states: seq<Sys>, steps: seq<Step>, i: nat)
    requires Run(states, steps) && i < |states|
    ensures DrainInv(states[i])
  {
    if i > 0 {
      RunDrains(states, steps, i - 1);
      RunInv(states, steps, i - 1);
      assert states[i - 1 + 1] == Apply(states[i - 1], steps[i - 1]);
      DrainStays(states[i - 1], steps[i - 1]);
    }
  }

  // ---------------------------------------------------------------------------
  // Theorems

  /** GOAWAY is queued at most once, and before any graceful GOODBYE. */
  lemma GoAwayOnceAndFirst(states: seq<Sys>, steps: seq<Step>, i: nat, a: nat, b: nat)
    requires Run(states, steps) && i < |states| && a < |states[i].server.log| && b < |states[i].server.log|
    ensures var log := states[i].server.log;
      && (log[a].GoAway? && log[b].GoAway? ==> a == b)
      && (log[b] == Goodbye(true) ==> exists g :: 0 <= g < b && log[g].GoAway?)
  {
    RunDrains(states, steps, i);
    var v := states[i].server;
    if v.log[b] == Goodbye(true) {
      assert v.log[v.goAwayAt.value].GoAway?;
    }
  }

  /** Once draining, always draining, and no request enters the table any more. */
  lemma NoAdmissionWhileDraining(states: seq<Sys>, steps: seq<Step>, i: nat)
    requires Run(states, steps) && i < |steps| && states[i].server.draining
    ensures states[i + 1].server.draining
    ensures states[i + 1].server.active <= states[i].server.active
    ensures states[i + 1].server.tasks.Keys == states[i].server.tasks.Keys
  {
    RunInv(states, steps, i);
    var s, step := states[i], steps[i];
    if !ClientStep(step) && !step.Deliver? {
      AnswersStay(s.client.calls, s.server, step);
    }
  }

  /** A graceful GOODBYE loses no call: when it is queued the server is draining, GOAWAY is
      in the log, the table is empty, and of every call ever admitted the answer is in the log
      or the call was already complete at the client. */
  lemma GracefulGoodbyeLosesNoCall(states: seq<Sys>, steps: seq<Step>, i: nat, id: nat)
    requires Run(states, steps) && i < |steps| && steps[i] == Part && states[i].server.loop == Parting(true)
    ensures states[i].server.active == {} && states[i].server.draining && states[i].server.goAwayAt.Some?
    ensures states[i + 1].server.log == states[i].server.log + [Goodbye(true)]
    ensures id in states[i].server.tasks ==>
      GivenUp(states[i].client.calls, id) ||
        exists a :: 0 <= a < |states[i].server.log| && AnswerAt(states[i].server.log, a, id)
  {
    RunDrains(states, steps, i);
    RunInv(states, steps, i);
    var calls, v := states[i].client.calls, states[i].server;
    PartingSettles(states[i]);
    if id in v.tasks && !GivenUp(calls, id) {
      assert TaskOk(calls, v, id) && Settled(calls, v, id, |v.log|);
      assert AnswerAt(v.log, v.tasks[id].answeredAt.value, id);
    }
  }

  /** And every graceful GOODBYE in a log was queued by such a step, after which no request
      has been admitted. */
  lemma {:induction false} GracefulGoodbyeWasQueued(states: seq<Sys>, steps: seq<Step>, i: nat, b: nat) returns (k: nat)
    requires Run(states, steps) && i < |states| && GoodbyeAt(states[i].server, b)
    ensures k < i && steps[k] == Part && states[k].server.loop == Parting(true) && |states[k].server.log| == b
    ensures states[i].server.tasks.Keys == states[k].server.tasks.Keys
    decreases i
  {
    GoodbyeNext(states, steps, i, b);
    if GoodbyeAt(states[i - 1].server, b) {
      k := GracefulGoodbyeWasQueued(states, steps, i - 1, b);
    } else {
      k := i - 1;
    }
  }

  predicate GoodbyeAt(v: Server, b: nat) {
    b < |v.log| && v.log[b] == Goodbye(true)
  }

  lemma GoodbyeNext(states: seq<Sys>, steps: seq<Step>, i: nat, b: nat)
    requires Run(states, steps) && i < |states| && GoodbyeAt(states[i].server, b)
    ensures i > 0 && states[i].server.tasks.Keys == states[i - 1].server.tasks.Keys
    ensures GoodbyeAt(states[i - 1].server, b) ||
      (steps[i - 1] == Part && states[i - 1].server.loop == Parting(true) && |states[i - 1].server.log| == b)
  {
    assert i > 0 ==> states[i - 1 + 1] == Apply(states[i - 1], steps[i - 1]);
    RunDrains(states, steps, i - 1);
    RunInv(states, steps, i - 1);
    GoodbyeFrom(states[i - 1], steps[i - 1], b);
  }

  lemma GoodbyeFrom(s: Sys, step: Step, b: nat)
    requires Inv(s) && DrainInv(s) && Enabled(s, step) && GoodbyeAt(Apply(s, step).server, b)
    ensures GoodbyeAt(s.server, b) || (step == Part && s.server.loop == Parting(true) && |s.server.log| == b)
    ensures Apply(s, step).server.tasks.Keys == s.server.tasks.Keys
  {
    if !ClientStep(step) && !step.Deliver? {
      AnswersStay(s.client.calls, s.server, step);
    }
  }

  // ---------------------------------------------------------------------------
  // The drain explained by the steps

  /** What a step makes of the loop and of the frames that are no answers. */
  predicate LoopNext(s: Sys, step: Step, t: Sys) {
    && (t.server.draining <==> s.server.draining || step == Drain)
    && s.server.log <= t.server.log && |t.server.log| <= |s.server.log| + 1
    && (|t.server.log| > |s.server.log| ==>
         var f := t.server.log[|s.server.log|];
         && (f.GoAway? <==> step == SendGoAway)
         && (f.Goodbye? <==> step == Part)
         && (f.Goodbye? ==> s.server.loop == Parting(f.graceful)))
    && (step == SendGoAway || step == Part ==> |t.server.log| == |s.server.log| + 1)
    && (t.server.loop == Stopped <==> s.server.loop == Stopped || step == Part || step == Stop)
    && (t.server.loop.Parting? ==>
         || t.server.loop == s.server.loop
         || (step == Check && s.server.active == {} && t.server.loop == Parting(true))
         || (step == Force && t.server.loop == Parting(false)))
  }

  lemma StepOnLoop(s: Sys, step: Step)
    requires Enabled(s, step)
    ensures LoopNext(s, step, Apply(s, step))
  {
    if !ClientStep(step) && LoopStep(step) {
      LoopOnLoop(s, step);
    }
  }

  lemma LoopOnLoop(s: Sys, step: Step)
    requires Enabled(s, step) && LoopStep(step)
    ensures LoopNext(s, step, Apply(s, step))
  {
  }

  ghost predicate LoopHistory(states: seq<Sys>, steps: seq<Step>) {
    && |states| == |steps| + 1 && states[0].server.log == []
    && !states[0].server.loop.Parting? && states[0].server.loop != Stopped
    && forall i :: 0 <= i < |steps| ==> LoopNext(states[i], steps[i], states[i + 1])
  }

  lemma HasLoopHistory(states: seq<Sys>, steps: seq<Step>)
    requires Run(states, steps)
    ensures LoopHistory(states, steps)
  {
    forall i | 0 <= i < |steps| ensures LoopNext(states[i], steps[i], states[i + 1]) {
      StepOnLoop(states[i], steps[i]);
    }
  }

  lemma {:induction false} DrainingFollows(states: seq<Sys>, steps: seq<Step>, i: nat)
    requires LoopHistory(states, steps) && i < |states|
    ensures states[i].server.draining <==> states[0].server.draining || exists j :: 0 <= j < i && steps[j] == Drain
  {
    if i > 0 {
      DrainingFollows(states, steps, i - 1);
      assert LoopNext(states[i - 1], steps[i - 1], states[i - 1 + 1]);
    }
  }

  /** The server drains if and only if it did from the start or was told to. */
  lemma DrainingIff(states: seq<Sys>, steps: seq<Step>, i: nat)
    requires Run(states, steps) && i < |states|
    ensures states[i].server.draining <==> states[0].server.draining || exists j :: 0 <= j < i && steps[j] == Drain
  {
    HasLoopHistory(states, steps);
    DrainingFollows(states, steps, i);
  }

  lemma {:induction false} StoppedFollows(states: seq<Sys>, steps: seq<Step>, i: nat)
    requires LoopHistory(states, steps) && i < |states|
    ensures states[i].server.loop == Stopped <==> exists j :: 0 <= j < i && (steps[j] == Part || steps[j] == Stop)
  {
    if i > 0 {
      StoppedFollows(states, steps, i - 1);
      assert LoopNext(states[i - 1], steps[i - 1], states[i - 1 + 1]);
    }
  }

  /** The loop has ended if and only if the server parted or was stopped. */
  lemma StoppedIff(states: seq<Sys>, steps: seq<Step>, i: nat)
    requires Run(states, steps) && i < |states|
    ensures states[i].server.loop == Stopped <==> exists j :: 0 <= j < i && (steps[j] == Part || steps[j] == Stop)
  {
    HasLoopHistory(states, steps);
    StoppedFollows(states, steps, i);
  }

  lemma {:induction false} PartingFollows(states: seq<Sys>, steps: seq<Step>, i: nat) returns (j: nat)
    requires LoopHistory(states, steps) && i < |states| && states[i].server.loop.Parting?
    ensures j < i
    ensures if states[i].server.loop.graceful then steps[j] == Check && states[j].server.active == {}
      else steps[j] == Force
  {
    assert LoopNext(states[i - 1], steps[i - 1], states[i - 1 + 1]);
    if states[i - 1].server.loop == states[i].server.loop {
      j := PartingFollows(states, steps, i - 1);
    } else {
      j := i - 1;
    }
  }

  lemma {:induction false} GoodbyeFollows(states: seq<Sys>, steps: seq<Step>, i: nat, a: nat) returns (k: nat)
    requires LoopHistory(states, steps) && i < |states|
    requires a < |states[i].server.log| && states[i].server.log[a].Goodbye?
    ensures k < i && steps[k] == Part && |states[k].server.log| == a
    ensures states[k].server.loop == Parting(states[i].server.log[a].graceful)
  {
    assert i > 0;
    assert LoopNext(states[i - 1], steps[i - 1], states[i - 1 + 1]);
    if a < |states[i - 1].server.log| {
      k := GoodbyeFollows(states, steps, i - 1, a);
    } else {
      k := i - 1;
    }
  }

  /** A GOODBYE is graceful if it was decided by a check that found the table empty, and not
      if the drain was cut short. */
  lemma GoodbyeExplained(states: seq<Sys>, steps: seq<Step>, i: nat, a: nat) returns (j: nat, k: nat)
    requires Run(states, steps) && i < |states|
    requires a < |states[i].server.log| && states[i].server.log[a].Goodbye?
    ensures j < k < i && steps[k] == Part && |states[k].server.log| == a
    ensures if states[i].server.log[a].graceful then steps[j] == Check && states[j].server.active == {}
      else steps[j] == Force
  {
    HasLoopHistory(states, steps);
    k := GoodbyeFollows(states, steps, i, a);
    j := PartingFollows(states, steps, k);
  }

  /** A drain can run its course: GOAWAY, a check, and with an empty table a graceful GOODBYE;
      otherwise the loop goes on serving and checks again when it is notified. */
  lemma DrainRunsItsCourse(v: Server)
    requires v.loop == Serving && !v.draining
    ensures ServerEnabled(v, Drain)
    ensures var draining := ServerAfter(v, Drain);
      && draining.draining && ServerEnabled(draining, SendGoAway)
      && var told := ServerAfter(draining, SendGoAway);
         && told.log == v.log + [GoAway] && told.active == v.active && ServerEnabled(told, Check)
         && CheckGoesOn(told)
  {
  }

  /** With an empty table a check leads to a graceful GOODBYE, otherwise to the next check. */
  predicate CheckGoesOn(v: Server)
    requires ServerEnabled(v, Check)
  {
    var checked := ServerAfter(v, Check);
    if v.active == {} then
      && ServerEnabled(checked, Part)
      && ServerAfter(checked, Part).log == v.log + [Goodbye(true)] && ServerAfter(checked, Part).loop == Stopped
    else
      && checked == v.(loop := Serving)
      && (v.draining ==> ServerEnabled(checked, Notified) && ServerEnabled(ServerAfter(checked, Notified), Check))
  }
}
