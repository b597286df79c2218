/** Multiplexing on one connection: what holds in every state of every run. */
module ConnectionRuns {
  import opened Common
  import opened Wire
  import opened Connection

  predicate SameRequest(call: Call, methodId: nat, body: bytes) {
    call.sent && call.methodId == methodId && call.body == body
  }

  /** A request on its way is the call's own and has not been seen by the server. */
  predicate FrameOk(calls: seq<Call>, v: Server, f: ClientFrame) {
    && Issued(calls, f.id)
    && (f.RequestFrame? ==> SameRequest(calls[f.id - 1], f.methodId, f.body) && f.id !in v.tasks && f.id !in v.refused)
  }

  predicate AnswerAt(log: seq<ServerFrame>, i: nat, id: nat) {
    i < |log| && log[i].Answer? && log[i].id == id
  }

  /** A task is on the table until it is aborted or its answer is queued. */
  predicate TaskState(v: Server, id: nat, t: Task) {
    && (t.stage == Running ==> t.output == None)
    && (t.stage == Running || t.stage == Handled ==> t.answeredAt == None)
    && (t.stage == Answered || t.stage == Removed ==> t.answeredAt.Some?)
    && (t.answeredAt.Some? ==> AnswerAt(v.log, t.answeredAt.value, id))
    && (id in v.active ==> t.stage != Removed && t.stage != Ended && !t.aborted)
    && (id !in v.active ==> t.aborted || t.answeredAt.Some?)
    && (t.stage != Ended <==> id in v.holders)
  }

  /** A task works on the call's own request. */
  predicate TaskOk(calls: seq<Call>, v: Server, id: nat)
    requires id in v.tasks
  {
    var t := v.tasks[id];
    Issued(calls, id) && SameRequest(calls[id - 1], t.methodId, t.body) && id !in v.refused && TaskState(v, id, t)
  }

  predicate RefusalOk(calls: seq<Call>, v: Server, id: nat)
    requires id in v.refused
  {
    Issued(calls, id) && calls[id - 1].sent && AnswerAt(v.log, v.refused[id], id)
  }

  /** An answer goes to the call it names, is the only one for it, and if it is a success it
      is the handler's output. */
  predicate AnswerOk(calls: seq<Call>, v: Server, i: nat)
    requires i < |v.log| && v.log[i].Answer?
  {
    var f := v.log[i];
    && Issued(calls, f.id) && f.methodId == calls[f.id - 1].methodId
    && (f.id in v.tasks || f.id in v.refused)
    && (f.id in v.tasks ==>
         && v.tasks[f.id].answeredAt == Some(i)
         && (f.outcome.Success? ==> v.tasks[f.id].output == Some(f.outcome)))
    && (f.id in v.refused ==> v.refused[f.id] == i && f.outcome == Failure)
  }

  ghost predicate NetInv(s: Sys) {
    forall f :: f in s.toServer ==> FrameOk(s.client.calls, s.server, f)
  }

  ghost predicate TableInv(calls: seq<Call>, v: Server) {
    && (forall id :: id in v.tasks ==> TaskOk(calls, v, id))
    && (forall id :: id in v.refused ==> RefusalOk(calls, v, id))
    && v.active <= v.tasks.Keys && v.holders <= v.tasks.Keys
    && |v.holders| <= v.maxInFlight
    && v.loop != Faulted
  }

  ghost predicate LogInv(calls: seq<Call>, v: Server) {
    forall i :: 0 <= i < |v.log| && v.log[i].Answer? ==> AnswerOk(calls, v, i)
  }

  predicate Produced(v: Server, id: nat, outcome: Option<Outcome>) {
    outcome.Some? && outcome.value.Success? ==> id in v.tasks && v.tasks[id].output == outcome
  }

  /** What a call got, or is about to get, as a success is its own task's output. */
  predicate CallOk(calls: seq<Call>, v: Server, k: nat)
    requires k < |calls|
  {
    Produced(v, k + 1, calls[k].result) && Produced(v, k + 1, calls[k].completing)
  }

  ghost predicate ClientInv(c: Client, v: Server) {
    && (forall k :: 0 <= k < |c.calls| ==> CallOk(c.calls, v, k))
    && c.received <= |v.log| && (c.reader.Some? ==> c.reader.value < c.received && v.log[c.reader.value].Answer?)
    && !c.broken
  }

  ghost predicate Inv(s: Sys) {
    NetInv(s) && TableInv(s.client.calls, s.server) && LogInv(s.client.calls, s.server) && ClientInv(s.client, s.server)
  }

  // ---------------------------------------------------------------------------
  // Client steps

  /** Calls keep what they asked for. */
  predicate CallsGrow(calls: seq<Call>, calls': seq<Call>) {
    && |calls| <= |calls'|
    && forall k :: 0 <= k < |calls| ==>
         && calls'[k].methodId == calls[k].methodId && calls'[k].body == calls[k].body
         && (calls[k].sent ==> calls'[k].sent)
  }

  lemma ClientGrows(s: Sys, step: Step)
    requires ClientStep(step) && ClientEnabled(s, step)
    ensures CallsGrow(s.client.calls, ClientAfter(s, step).calls)
  {
  }

  lemma ServerUnmoved(calls: seq<Call>, calls': seq<Call>, v: Server)
    requires TableInv(calls, v) && LogInv(calls, v) && CallsGrow(calls, calls')
    ensures TableInv(calls', v) && LogInv(calls', v)
  {
  }

  /** The server knows only ids whose request was sent. */
  lemma SeenWasSent(calls: seq<Call>, v: Server)
    requires TableInv(calls, v)
    ensures forall id :: id in v.tasks ==> Issued(calls, id) && calls[id - 1].sent
    ensures forall id :: id in v.refused ==> Issued(calls, id) && calls[id - 1].sent
  {
  }

  lemma ClientKeepsNet(s: Sys, step: Step)
    requires Inv(s) && Enabled(s, step) && ClientStep(step)
    ensures NetInv(Apply(s, step))
  {
    var s' := Apply(s, step);
    ClientGrows(s, step);
    SeenWasSent(s.client.calls, s.server);
    forall f | f in s'.toServer ensures FrameOk(s'.client.calls, s'.server, f) {
      if f in s.toServer {
        assert FrameOk(s.client.calls, s.server, f);
      }
    }
  }

  /** Every answer the client reads passes `validateResponse`. */
  lemma ReadKeepsClient(c: Client, v: Server)
    requires ClientInv(c, v) && LogInv(c.calls, v) && c.received < |v.log|
    ensures ClientInv(DoRead(c, v.log), v)
  {
  }

  lemma TakeKeepsClient(c: Client, v: Server)
    requires ClientInv(c, v) && LogInv(c.calls, v) && AtAnswer(c, v.log)
    ensures ClientInv(DoTake(c, v.log), v)
  {
    assert AnswerOk(c.calls, v, c.reader.value);
    var c' := DoTake(c, v.log);
    forall k | 0 <= k < |c'.calls| ensures CallOk(c'.calls, v, k) {
      assert CallOk(c.calls, v, k);
    }
  }

  lemma UpdateKeepsClient(c: Client, v: Server, k: nat, call: Call)
    requires ClientInv(c, v) && k < |c.calls| && Produced(v, k + 1, call.result) && Produced(v, k + 1, call.completing)
    ensures ClientInv(WithCall(c, k, call), v)
  {
    var c' := WithCall(c, k, call);
    forall j | 0 <= j < |c'.calls| ensures CallOk(c'.calls, v, j) {
      assert CallOk(c.calls, v, j);
    }
  }

  lemma BeginKeepsClient(c: Client, v: Server, methodId: nat, body: bytes)
    requires ClientInv(c, v)
    ensures ClientInv(DoBegin(c, methodId, body), v)
  {
    var c' := DoBegin(c, methodId, body);
    forall j | 0 <= j < |c'.calls| ensures CallOk(c'.calls, v, j) {
      if j < |c.calls| { assert CallOk(c.calls, v, j); }
    }
  }

  lemma ClientKeepsClient(s: Sys, step: Step)
    requires Inv(s) && ClientStep(step) && ClientEnabled(s, step)
    ensures ClientInv(ClientAfter(s, step), s.server)
  {
    var c, v := s.client, s.server;
    match step
    case Begin(methodId, body) => BeginKeepsClient(c, v, methodId, body);
    case Read => ReadKeepsClient(c, v);
    case Take => TakeKeepsClient(c, v);
    case Lose(_) =>
    case Send(k) =>
      assert CallOk(c.calls, v, k);
      UpdateKeepsClient(c, v, k, c.calls[k].(sent := true));
    case Fail(k) =>
      assert CallOk(c.calls, v, k);
      UpdateKeepsClient(c, v, k, Complete(c.calls[k], Failure));
    case Cleanup(k, _) =>
      assert CallOk(c.calls, v, k);
      UpdateKeepsClient(c, v, k, c.calls[k].(pending := false, cleaned := true));
    case Finish(k) =>
      assert CallOk(c.calls, v, k);
      UpdateKeepsClient(c, v, k, Complete(c.calls[k], c.calls[k].completing.value).(completing := None));
  }

  lemma ClientStepKeepsInv(s: Sys, step: Step)
    requires Inv(s) && Enabled(s, step) && ClientStep(step)
    ensures Inv(Apply(s, step))
  {
    ClientGrows(s, step);
    ServerUnmoved(s.client.calls, ClientAfter(s, step).calls, s.server);
    ClientKeepsNet(s, step);
    ClientKeepsClient(s, step);
  }

  // ---------------------------------------------------------------------------
  // Server steps

  /** The log is only appended to, tasks stay, and what a handler returned stays. */
  ghost predicate ServerGrows(v: Server, v': Server) {
    && v.log <= v'.log && v.tasks.Keys <= v'.tasks.Keys
    && forall id :: id in v.tasks ==> (v.tasks[id].output.Some? ==> v'.tasks[id].output == v.tasks[id].output)
  }

  lemma GrowthKeepsClient(c: Client, v: Server, v': Server)
    requires ClientInv(c, v) && ServerGrows(v, v')
    ensures ClientInv(c, v')
  {
    forall k | 0 <= k < |c.calls| ensures CallOk(c.calls, v', k) {
      assert CallOk(c.calls, v, k);
    }
  }

  /** One task changes, and the log may grow by its answer. */
  lemma TaskMoves(calls: seq<Call>, v: Server, v': Server, id: nat)
    requires TableInv(calls, v) && id in v.tasks && id in v'.tasks && v'.tasks == v.tasks[id := v'.tasks[id]]
    requires v'.tasks[id].methodId == v.tasks[id].methodId && v'.tasks[id].body == v.tasks[id].body
    requires TaskState(v', id, v'.tasks[id])
    requires v'.refused == v.refused && v.log <= v'.log && v'.loop == v.loop && v'.maxInFlight == v.maxInFlight
    requires v'.active - {id} == v.active - {id} && v'.holders - {id} == v.holders - {id}
    requires v'.active <= v.active && v'.holders <= v.holders
    ensures TableInv(calls, v')
  {
    assert TaskOk(calls, v, id);
    forall other | other in v'.tasks ensures TaskOk(calls, v', other) {
      if other != id {
        assert TaskOk(calls, v, other);
        assert other in v'.active <==> other in v'.active - {id};
        assert other in v'.holders <==> other in v'.holders - {id};
      }
    }
    forall other | other in v'.refused ensures RefusalOk(calls, v', other) {
      assert RefusalOk(calls, v, other);
    }
    SubsetSize(v'.holders, v.holders);
  }

  lemma SubsetSize(a: set<nat>, b: set<nat>)
    requires a <= b
    ensures |a| <= |b|
  {
    assert b == a + (b - a);
  }

  lemma TaskStepKeepsTable(calls: seq<Call>, v: Server, step: Step)
    requires TableInv(calls, v) && TaskStep(step) && ServerEnabled(v, step)
    ensures TableInv(calls, TaskAfter(v, step))
  {
    assert TaskOk(calls, v, step.id);
    TaskMoves(calls, v, TaskAfter(v, step), step.id);
  }

  lemma TaskStepKeepsLog(calls: seq<Call>, v: Server, step: Step)
    requires TableInv(calls, v) && LogInv(calls, v) && TaskStep(step) && ServerEnabled(v, step)
    ensures LogInv(calls, TaskAfter(v, step)) && ServerGrows(v, TaskAfter(v, step))
  {
    var v' := TaskAfter(v, step);
    assert TaskOk(calls, v, step.id);
    TaskStepGrows(v, step);
    forall i | 0 <= i < |v'.log| && v'.log[i].Answer? ensures AnswerOk(calls, v', i) {
      if i < |v.log| {
        assert v'.log[i] == v.log[i];
        OldAnswerStays(calls, v, step, i);
      } else {
        NewAnswerOk(calls, v, step);
      }
    }
  }

  lemma TaskStepGrows(v: Server, step: Step)
    requires TaskStep(step) && ServerEnabled(v, step) && TaskState(v, step.id, v.tasks[step.id])
    ensures ServerGrows(v, TaskAfter(v, step))
  {
  }

  lemma OldAnswerStays(calls: seq<Call>, v: Server, step: Step, i: nat)
    requires TaskStep(step) && ServerEnabled(v, step) && TaskOk(calls, v, step.id)
    requires i < |v.log| && v.log[i].Answer? && AnswerOk(calls, v, i)
    ensures AnswerOk(calls, TaskAfter(v, step), i)
  {
  }

  /** Only `Respond` adds to the log, and what it adds is the task's own answer. */
  lemma NewAnswerOk(calls: seq<Call>, v: Server, step: Step)
    requires TaskStep(step) && ServerEnabled(v, step) && TaskOk(calls, v, step.id)
    ensures var v' := TaskAfter(v, step);
      |v'.log| <= |v.log| + 1 && (|v'.log| > |v.log| ==> v'.log[|v.log|].Answer? && AnswerOk(calls, v', |v.log|))
  {
  }

  lemma CancelKeeps(calls: seq<Call>, v: Server, id: nat)
    requires TableInv(calls, v) && LogInv(calls, v)
    ensures var v' := DoCancel(v, id); TableInv(calls, v') && LogInv(calls, v') && ServerGrows(v, v')
  {
    var v' := DoCancel(v, id);
    if id in v.active {
      assert TaskOk(calls, v, id);
      TaskMoves(calls, v, v', id);
    }
    forall i | 0 <= i < |v'.log| && v'.log[i].Answer? ensures AnswerOk(calls, v', i) {
      assert AnswerOk(calls, v, i);
    }
  }

  /** The server has not seen this request. */
  predicate Fresh(calls: seq<Call>, v: Server, id: nat, methodId: nat, body: bytes) {
    Issued(calls, id) && SameRequest(calls[id - 1], methodId, body) && id !in v.tasks && id !in v.refused
  }

  lemma RefuseKeeps(calls: seq<Call>, v: Server, id: nat, methodId: nat, body: bytes)
    requires TableInv(calls, v) && LogInv(calls, v) && Fresh(calls, v, id, methodId, body)
    ensures var v' := Refuse(v, id, methodId); TableInv(calls, v') && LogInv(calls, v') && ServerGrows(v, v')
  {
    var v' := Refuse(v, id, methodId);
    forall other | other in v'.tasks ensures TaskOk(calls, v', other) {
      assert TaskOk(calls, v, other);
    }
    forall other | other in v'.refused ensures RefusalOk(calls, v', other) {
      if other != id { assert RefusalOk(calls, v, other); }
    }
    forall i | 0 <= i < |v'.log| && v'.log[i].Answer? ensures AnswerOk(calls, v', i) {
      if i < |v.log| {
        assert v'.log[i] == v.log[i];
        assert AnswerOk(calls, v, i);
      }
    }
  }

  lemma AdmitKeepsTable(calls: seq<Call>, v: Server, id: nat, methodId: nat, body: bytes)
    requires TableInv(calls, v) && Fresh(calls, v, id, methodId, body) && |v.holders| < v.maxInFlight
    ensures TableInv(calls, Admit(v, id, methodId, body))
  {
    var v' := Admit(v, id, methodId, body);
    assert TaskOk(calls, v', id);
    forall other | other in v'.tasks && other != id ensures TaskOk(calls, v', other) {
      assert TaskOk(calls, v, other);
    }
    forall other | other in v'.refused ensures RefusalOk(calls, v', other) {
      assert RefusalOk(calls, v, other);
    }
  }

  lemma AdmitKeepsLog(calls: seq<Call>, v: Server, id: nat, methodId: nat, body: bytes)
    requires LogInv(calls, v) && Fresh(calls, v, id, methodId, body)
    ensures LogInv(calls, Admit(v, id, methodId, body)) && ServerGrows(v, Admit(v, id, methodId, body))
  {
  }

  lemma RequestKeeps(calls: seq<Call>, v: Server, id: nat, methodId: nat, body: bytes)
    requires TableInv(calls, v) && LogInv(calls, v) && Fresh(calls, v, id, methodId, body)
    ensures var v' := DoRequest(v, id, methodId, body);
      && TableInv(calls, v') && LogInv(calls, v') && ServerGrows(v, v')
      && (v' == Refuse(v, id, methodId) || v' == Admit(v, id, methodId, body))
  {
    if v.draining || |v.holders| >= v.maxInFlight {
      RefuseKeeps(calls, v, id, methodId, body);
    } else {
      AdmitKeepsTable(calls, v, id, methodId, body);
      AdmitKeepsLog(calls, v, id, methodId, body);
    }
  }

  /** The server gets to know at most the id of the request delivered. */
  lemma DeliverKnows(v: Server, step: Step)
    requires step.Deliver? && ServerEnabled(v, step)
    ensures var v' := ServerAfter(v, step);
      && (forall id :: id in v'.tasks ==> id in v.tasks || (step.f.RequestFrame? && id == step.f.id))
      && (forall id :: id in v'.refused ==> id in v.refused || (step.f.RequestFrame? && id == step.f.id))
  {
  }

  lemma DeliverKeepsNet(s: Sys, step: Step)
    requires NetInv(s) && Enabled(s, step) && step.Deliver?
    ensures NetInv(Apply(s, step))
  {
    var calls, v := s.client.calls, s.server;
    DeliverKnows(v, step);
    assert FrameOk(calls, v, step.f);
    forall g | g in Apply(s, step).toServer ensures FrameOk(calls, ServerAfter(v, step), g) {
      assert FrameOk(calls, v, g);
    }
  }

  lemma DeliverKeepsInv(s: Sys, step: Step)
    requires Inv(s) && Enabled(s, step) && step.Deliver?
    ensures Inv(Apply(s, step))
  {
    var f, calls, v := step.f, s.client.calls, s.server;
    DeliverKeepsNet(s, step);
    assert FrameOk(calls, v, f);
    if f.CancelFrame? {
      CancelKeeps(calls, v, f.id);
    } else {
      RequestKeeps(calls, v, f.id, f.methodId, f.body);
    }
    GrowthKeepsClient(s.client, v, ServerAfter(v, step));
  }

  /** Steps of the loop itself leave the tables alone, but for the epilogue. */
  lemma LoopStepKeepsTable(calls: seq<Call>, v: Server, step: Step)
    requires TableInv(calls, v) && LoopStep(step) && ServerEnabled(v, step)
    ensures TableInv(calls, LoopAfter(v, step))
  {
    var v' := LoopAfter(v, step);
    LogGrowsByNoAnswer(v, step);
    forall id | id in v'.tasks ensures TaskOk(calls, v', id) {
      assert TaskOk(calls, v, id);
    }
    forall id | id in v'.refused ensures RefusalOk(calls, v', id) {
      assert RefusalOk(calls, v, id);
    }
  }

  lemma LoopStepKeepsLog(calls: seq<Call>, v: Server, step: Step)
    requires LogInv(calls, v) && LoopStep(step) && ServerEnabled(v, step)
    ensures LogInv(calls, LoopAfter(v, step)) && ServerGrows(v, LoopAfter(v, step))
  {
    var v' := LoopAfter(v, step);
    LogGrowsByNoAnswer(v, step);
    forall i | 0 <= i < |v'.log| && v'.log[i].Answer? ensures AnswerOk(calls, v', i) {
      assert v'.log[i] == v.log[i];
      assert AnswerOk(calls, v, i);
    }
  }

  lemma LogGrowsByNoAnswer(v: Server, step: Step)
    requires LoopStep(step) && ServerEnabled(v, step)
    ensures var v' := LoopAfter(v, step);
      && v.log <= v'.log && v'.refused == v.refused && v'.tasks.Keys == v.tasks.Keys && v'.holders == v.holders
      && v'.maxInFlight == v.maxInFlight && v'.loop != Faulted
      && (forall i :: |v.log| <= i < |v'.log| ==> !v'.log[i].Answer?)
      && (if step.Epilogue? then v'.active == {} && v'.tasks == AbortAll(v)
          else v'.active == v.active && v'.tasks == v.tasks)
  {
  }

  lemma ServerStepKeepsInv(s: Sys, step: Step)
    requires Inv(s) && Enabled(s, step) && !ClientStep(step)
    ensures Inv(Apply(s, step))
  {
    var calls, v := s.client.calls, s.server;
    var s' := Apply(s, step);
    if step.Deliver? {
      DeliverKeepsInv(s, step);
    } else {
      if TaskStep(step) {
        TaskStepKeepsTable(calls, v, step);
        TaskStepKeepsLog(calls, v, step);
      } else {
        LogGrowsByNoAnswer(v, step);
        LoopStepKeepsTable(calls, v, step);
        LoopStepKeepsLog(calls, v, step);
      }
      GrowthKeepsClient(s.client, v, s'.server);
      forall f | f in s'.toServer ensures FrameOk(calls, s'.server, f) {
        assert FrameOk(calls, v, f);
      }
    }
  }

  lemma {:induction false} RunInv(states: seq<Sys>, steps: seq<Step>, i: nat)
    requires Run(states, steps) && i < |states|
    ensures Inv(states[i])
  {
    if i > 0 {
      RunInv(states, steps, i - 1);
      assert states[i - 1 + 1] == Apply(states[i - 1], steps[i - 1]);
      if ClientStep(steps[i - 1]) {
        ClientStepKeepsInv(states[i - 1], steps[i - 1]);
      } else {
        ServerStepKeepsInv(states[i - 1], steps[i - 1]);
      }
    }
  }

  // ---------------------------------------------------------------------------
  // Theorems

  /** A success a call got is what the handler returned for that call's own request. */
  lemma OwnResponse(states: seq<Sys>, steps: seq<Step>, i: nat, k: nat)
    requires Run(states, steps) && i < |states| && k < |states[i].client.calls|
    ensures var call, tasks := states[i].client.calls[k], states[i].server.tasks;
      call.result.Some? && call.result.value.Success? ==>
        && k + 1 in tasks && tasks[k + 1].methodId == call.methodId && tasks[k + 1].body == call.body
        && tasks[k + 1].output == call.result
  {
    RunInv(states, steps, i);
    var s := states[i];
    assert CallOk(s.client.calls, s.server, k);
    assert k + 1 in s.server.tasks ==> TaskOk(s.client.calls, s.server, k + 1);
  }

  /** The server never meets an id that is zero or already active, and the client never a
      response that does not match the pending call. */
  lemma NoProtocolError(states: seq<Sys>, steps: seq<Step>, i: nat)
    requires Run(states, steps) && i < |states|
    ensures states[i].server.loop != Faulted && !states[i].client.broken
  {
    RunInv(states, steps, i);
  }

  /** No call is answered twice, be it by its task or by a refusal. */
  lemma OneAnswerPerCall(states: seq<Sys>, steps: seq<Step>, i: nat, a: nat, b: nat)
    requires Run(states, steps) && i < |states|
    requires var log := states[i].server.log;
      a < |log| && b < |log| && log[a].Answer? && log[b].Answer? && log[a].id == log[b].id
    ensures a == b
  {
    RunInv(states, steps, i);
    assert AnswerOk(states[i].client.calls, states[i].server, a);
    assert AnswerOk(states[i].client.calls, states[i].server, b);
  }

  lemma InFlightBounded(states: seq<Sys>, steps: seq<Step>, i: nat)
    requires Run(states, steps) && i < |states|
    ensures states[i].server.active <= states[i].server.holders
    ensures |states[i].server.active| <= |states[i].server.holders| <= states[i].server.maxInFlight
  {
    RunInv(states, steps, i);
    var v := states[i].server;
    forall id | id in v.active ensures id in v.holders {
      assert TaskOk(states[i].client.calls, v, id);
    }
    SubsetSize(v.active, v.holders);
  }

  /** Nothing a call was given is taken back. */
  predicate ResultsStay(calls: seq<Call>, calls': seq<Call>) {
    && |calls| <= |calls'|
    && forall k :: 0 <= k < |calls| && calls[k].result.Some? ==> calls'[k].result == calls[k].result
  }

  lemma StepKeepsResults(s: Sys, step: Step)
    requires Enabled(s, step)
    ensures ResultsStay(s.client.calls, Apply(s, step).client.calls)
  {
  }

  lemma NextKeepsResults(states: seq<Sys>, steps: seq<Step>, j: nat)
    requires Run(states, steps) && 0 < j < |states|
    ensures ResultsStay(states[j - 1].client.calls, states[j].client.calls)
  {
    assert states[j - 1 + 1] == Apply(states[j - 1], steps[j - 1]);
    StepKeepsResults(states[j - 1], steps[j - 1]);
  }

  /** A call completes at most once: a late response, timeout or failure changes nothing. */
  lemma {:induction false} CompletesOnce(states: seq<Sys>, steps: seq<Step>, i: nat, j: nat, k: nat)
    requires Run(states, steps) && i <= j < |states| && k < |states[i].client.calls|
    requires states[i].client.calls[k].result.Some?
    ensures k < |states[j].client.calls| && states[j].client.calls[k].result == states[i].client.calls[k].result
    decreases j
  {
    if i < j {
      CompletesOnce(states, steps, i, j - 1, k);
      NextKeepsResults(states, steps, j);
    }
  }

  /** The server has seen the request, and it is not on the table. */
  predicate OffTable(v: Server, id: nat) {
    id in v.tasks && id !in v.active
  }

  /** A cancel takes a request off the table, and one that is off stays off. */
  lemma StepTakesOff(s: Sys, step: Step, id: nat)
    requires NetInv(s) && Enabled(s, step) && id in s.server.tasks
    requires step == Deliver(CancelFrame(id)) || OffTable(s.server, id)
    ensures OffTable(Apply(s, step).server, id)
  {
    if step.Deliver? {
      assert FrameOk(s.client.calls, s.server, step.f);
    }
  }

  lemma NetInvHolds(states: seq<Sys>, steps: seq<Step>, i: nat)
    requires Run(states, steps) && i < |states|
    ensures NetInv(states[i])
  {
    RunInv(states, steps, i);
  }

  /** A cancel takes an admitted request off the table, and it never comes back; nor does any
      other request that has left it. */
  lemma {:induction false} LeavesTableForGood(states: seq<Sys>, steps: seq<Step>, i: nat, j: nat, id: nat)
    requires Run(states, steps) && i < j < |states| && id in states[i].server.tasks
    requires steps[i] == Deliver(CancelFrame(id)) || OffTable(states[i].server, id)
    ensures OffTable(states[j].server, id)
    decreases j
  {
    if i < j - 1 {
      LeavesTableForGood(states, steps, i, j - 1, id);
    }
    NetInvHolds(states, steps, j - 1);
    StepTakesOff(states[j - 1], steps[j - 1], id);
    assert states[j - 1 + 1] == Apply(states[j - 1], steps[j - 1]);
  }
}
