/** One connection, both peers: the client's calls and pending table (MoonLightClient.java)
    and the server's loop, active table and request tasks
    (crates/moonlight-bridge-server/src/lib.rs, `serve_connection`), as a step system.

    A step is what happens without another thread in between: one section under a lock, one
    send, one look into a table. Timeouts, aborts and scheduling are free choices. Handlers
    return a result and request ids do not wrap. Requests and cancels may overtake one another
    on the way to the server, as a direct write may; answers travel in the order queued. */
module Connection {
  import opened Common
  import opened Wire

  datatype Outcome = Success(body: bytes) | Failure

  datatype ClientFrame = RequestFrame(id: nat, methodId: nat, body: bytes) | CancelFrame(id: nat)

  datatype ServerFrame = Answer(id: nat, methodId: nat, outcome: Outcome) | GoAway | Goodbye(graceful: bool)

  /** A call: `pending` is its entry in the pending table, `completing` what the reader took
      it off the table with, `result` the future. Its request id is one more than its index. */
  datatype Call = Call(methodId: nat, body: bytes, sent: bool, pending: bool, completing: Option<Outcome>,
                       result: Option<Outcome>, cleaned: bool)

  /** A request task: handler running, handler returned, answer queued, off the table, over. */
  datatype Stage = Running | Handled | Answered | Removed | Ended

  datatype Task = Task(methodId: nat, body: bytes, stage: Stage, aborted: bool, output: Option<Outcome>,
                       answeredAt: Option<nat>)

  datatype Loop = Serving | SendingGoAway(check: bool) | Checking | Parting(graceful: bool) | Stopped | Faulted

  /** The reader has taken the first `received` frames; `reader` is the one it is at. */
  datatype Client = Client(calls: seq<Call>, received: nat, reader: Option<nat>, broken: bool)

  /** `log` holds every frame ever queued for the client. `refused` and `goAwayAt` remember
      where in the log a refusal or the GOAWAY went. */
  datatype Server = Server(
    log: seq<ServerFrame>,
    active: set<nat>,
    tasks: map<nat, Task>,
    holders: set<nat>,
    refused: map<nat, nat>,
    loop: Loop,
    draining: bool,
    goAwayAt: Option<nat>,
    maxInFlight: nat)

  datatype Sys = Sys(client: Client, toServer: set<ClientFrame>, server: Server)

  datatype Step =
    | Begin(methodId: nat, body: bytes)
    | Send(k: nat)
    | Lose(f: ClientFrame)
    | Fail(k: nat)
    | Cleanup(k: nat, cancel: bool)
    | Read
    | Take
    | Finish(k: nat)
    | Deliver(f: ClientFrame)
    | Handle(id: nat, output: Outcome)
    | Respond(id: nat, degraded: bool)
    | Remove(id: nat)
    | End(id: nat)
    | Drain
    | SendGoAway
    | Check
    | Notified
    | Force
    | Part
    | Stop
    | Epilogue

  predicate Initial(s: Sys) {
    && s.client == Client([], 0, None, false) && s.toServer == {}
    && var v := s.server;
       && v.log == [] && v.active == {} && v.tasks == map[] && v.holders == {} && v.refused == map[]
       && v.goAwayAt == None
       && v.loop == if v.draining then SendingGoAway(false) else Serving
  }

  predicate Issued(calls: seq<Call>, id: nat) {
    1 <= id <= |calls|
  }

  predicate ClientStep(step: Step) {
    step.Begin? || step.Send? || step.Lose? || step.Fail? || step.Cleanup? || step.Read? || step.Take? || step.Finish?
  }

  predicate AtAnswer(c: Client, log: seq<ServerFrame>) {
    c.reader.Some? && c.reader.value < |log| && log[c.reader.value].Answer? && Issued(c.calls, log[c.reader.value].id)
  }

  predicate ClientEnabled(s: Sys, step: Step)
    requires ClientStep(step)
  {
    var calls := s.client.calls;
    match step
    case Begin(_, _) => true
    case Send(k) => k < |calls| && !calls[k].sent
    case Lose(f) => f in s.toServer
    case Fail(k) => k < |calls|
    case Cleanup(k, _) => k < |calls| && calls[k].result.Some? && !calls[k].cleaned
    case Read => s.client.reader.None? && s.client.received < |s.server.log|
    case Take => AtAnswer(s.client, s.server.log)
    case Finish(k) => k < |calls| && calls[k].completing.Some?
  }

  predicate ServerEnabled(v: Server, step: Step)
    requires !ClientStep(step)
  {
    match step
    case Deliver(f) => v.loop == Serving
    case Handle(id, _) => id in v.tasks && v.tasks[id].stage == Running
    case Respond(id, _) => id in v.tasks && v.tasks[id].stage == Handled && v.tasks[id].output.Some?
    case Remove(id) => id in v.tasks && v.tasks[id].stage == Answered
    case End(id) =>
      id in v.tasks && (v.tasks[id].stage == Removed || (v.tasks[id].aborted && v.tasks[id].stage != Ended))
    case Drain => v.loop == Serving && !v.draining
    case SendGoAway => v.loop.SendingGoAway?
    case Check => v.loop == Checking
    case Notified => v.loop == Serving && v.draining
    case Force => v.loop == Serving
    case Part => v.loop.Parting?
    case Stop => v.loop == Serving
    case Epilogue => v.loop == Stopped
  }

  predicate Enabled(s: Sys, step: Step) {
    if ClientStep(step) then ClientEnabled(s, step)
    else ServerEnabled(s.server, step) && (step.Deliver? ==> step.f in s.toServer)
  }

  // ---------------------------------------------------------------------------
  // The client

  function WithCall(c: Client, k: nat, call: Call): Client
    requires k < |c.calls|
  {
    c.(calls := c.calls[k := call])
  }

  /** `sendRequest`: allocate an id and enter the pending table. */
  function DoBegin(c: Client, methodId: nat, body: bytes): Client {
    c.(calls := c.calls + [Call(methodId, body, false, true, None, None, false)])
  }

  /** Completing a future that is already complete does nothing. */
  function Complete(call: Call, outcome: Outcome): Call {
    if call.result.Some? then call else call.(result := Some(outcome))
  }

  /** The reader up to the look into the pending table and `validateResponse`. */
  function DoRead(c: Client, log: seq<ServerFrame>): Client
    requires c.received < |log|
  {
    var f := log[c.received];
    var after := c.(received := c.received + 1);
    if !f.Answer? || !Issued(c.calls, f.id) || !c.calls[f.id - 1].pending then after
    else if f.methodId != c.calls[f.id - 1].methodId then after.(broken := true)
    else after.(reader := Some(c.received))
  }

  /** `pending.remove(id, request)`: whoever removes the entry completes the call. */
  function DoTake(c: Client, log: seq<ServerFrame>): Client
    requires AtAnswer(c, log)
  {
    var f := log[c.reader.value];
    var call := c.calls[f.id - 1];
    var after := c.(reader := None);
    if call.pending then WithCall(after, f.id - 1, call.(pending := false, completing := Some(f.outcome))) else after
  }

  function DoFinish(c: Client, k: nat): Client
    requires k < |c.calls| && c.calls[k].completing.Some?
  {
    WithCall(c, k, Complete(c.calls[k], c.calls[k].completing.value).(completing := None))
  }

  function ClientAfter(s: Sys, step: Step): Client
    requires ClientStep(step) && ClientEnabled(s, step)
  {
    var c := s.client;
    match step
    case Begin(methodId, body) => DoBegin(c, methodId, body)
    case Send(k) => WithCall(c, k, c.calls[k].(sent := true))
    case Lose(_) => c
    case Fail(k) => WithCall(c, k, Complete(c.calls[k], Failure))
    case Cleanup(k, _) => WithCall(c, k, c.calls[k].(pending := false, cleaned := true))
    case Read => DoRead(c, s.server.log)
    case Take => DoTake(c, s.server.log)
    case Finish(k) => DoFinish(c, k)
  }

  /** The completion callback tells the server of a timeout or a cancel. */
  function NetAfter(s: Sys, step: Step): set<ClientFrame>
    requires Enabled(s, step)
  {
    match step
    case Send(k) => s.toServer + {RequestFrame(k + 1, s.client.calls[k].methodId, s.client.calls[k].body)}
    case Cleanup(k, cancel) => if cancel then s.toServer + {CancelFrame(k + 1)} else s.toServer
    case Lose(f) => s.toServer - {f}
    case Deliver(f) => s.toServer - {f}
    case _ => s.toServer
  }

  // ---------------------------------------------------------------------------
  // The server

  function Refuse(v: Server, id: nat, methodId: nat): Server {
    v.(log := v.log + [Answer(id, methodId, Failure)], refused := v.refused[id := |v.log|])
  }

  function Admit(v: Server, id: nat, methodId: nat, body: bytes): Server {
    v.(active := v.active + {id}, holders := v.holders + {id},
       tasks := v.tasks[id := Task(methodId, body, Running, false, None, None)])
  }

  /** The request arm of the server's loop. */
  function DoRequest(v: Server, id: nat, methodId: nat, body: bytes): Server {
    if v.draining then Refuse(v, id, methodId)
    else if id == 0 then v.(loop := Faulted)
    else if |v.holders| >= v.maxInFlight then Refuse(v, id, methodId)
    else if id in v.active then v.(loop := Faulted)
    else Admit(v, id, methodId, body)
  }

  function DoCancel(v: Server, id: nat): Server {
    if id in v.active && id in v.tasks then
      v.(active := v.active - {id}, tasks := v.tasks[id := v.tasks[id].(aborted := true)])
    else v
  }

  function WithTask(v: Server, id: nat, t: Task): Server {
    v.(tasks := v.tasks[id := t])
  }

  /** A task's answer; the response queue or the writer may turn a success into an error. */
  function DoRespond(v: Server, id: nat, degraded: bool): Server
    requires id in v.tasks && v.tasks[id].output.Some?
  {
    var t := v.tasks[id];
    var frame := Answer(id, t.methodId, if degraded then Failure else t.output.value);
    WithTask(v, id, t.(stage := Answered, answeredAt := Some(|v.log|))).(log := v.log + [frame])
  }

  function AbortAll(v: Server): map<nat, Task> {
    map id | id in v.tasks :: if id in v.active then v.tasks[id].(aborted := true) else v.tasks[id]
  }

  predicate TaskStep(step: Step) {
    step.Handle? || step.Respond? || step.Remove? || step.End?
  }

  function TaskAfter(v: Server, step: Step): Server
    requires TaskStep(step) && ServerEnabled(v, step)
  {
    match step
    case Handle(id, output) => WithTask(v, id, v.tasks[id].(stage := Handled, output := Some(output)))
    case Respond(id, degraded) => DoRespond(v, id, degraded)
    case Remove(id) => WithTask(v, id, v.tasks[id].(stage := Removed)).(active := v.active - {id})
    case End(id) => WithTask(v, id, v.tasks[id].(stage := Ended)).(holders := v.holders - {id})
  }

  predicate LoopStep(step: Step) {
    step.Drain? || step.SendGoAway? || step.Check? || step.Notified? || step.Force? || step.Part? || step.Stop? ||
      step.Epilogue?
  }

  function LoopAfter(v: Server, step: Step): Server
    requires LoopStep(step) && ServerEnabled(v, step)
  {
    match step
    case Drain => v.(draining := true, loop := SendingGoAway(true))
    case SendGoAway =>
      v.(log := v.log + [GoAway], goAwayAt := Some(|v.log|), loop := if v.loop.check then Checking else Serving)
    case Check => v.(loop := if v.active == {} then Parting(true) else Serving)
    case Notified => v.(loop := Checking)
    case Force => v.(loop := Parting(false))
    case Part => v.(log := v.log + [Goodbye(v.loop.graceful)], loop := Stopped)
    case Stop => v.(loop := Stopped)
    case Epilogue => v.(active := {}, tasks := AbortAll(v))
  }

  function ServerAfter(v: Server, step: Step): Server
    requires !ClientStep(step) && ServerEnabled(v, step)
  {
    if step.Deliver? then
      (if step.f.CancelFrame? then DoCancel(v, step.f.id) else DoRequest(v, step.f.id, step.f.methodId, step.f.body))
    else if TaskStep(step) then TaskAfter(v, step)
    else LoopAfter(v, step)
  }

  function Apply(s: Sys, step: Step): Sys
    requires Enabled(s, step)
  {
    Sys(if ClientStep(step) then ClientAfter(s, step) else s.client,
        NetAfter(s, step),
        if ClientStep(step) then s.server else ServerAfter(s.server, step))
  }

  ghost predicate Run(states: seq<Sys>, steps: seq<Step>) {
    && |states| == |steps| + 1 && Initial(states[0])
    && forall i :: 0 <= i < |steps| ==> Enabled(states[i], steps[i]) && states[i + 1] == Apply(states[i], steps[i])
  }
}
