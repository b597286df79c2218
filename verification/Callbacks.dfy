/** Serialised callbacks of a server stream: a queue, a compare-and-set flag and whatever
    threads the executor provides (MoonLightServerStream.java, `dispatchCallback` and
    `drainCallbacks`).

    An agent is one thread's passage through `dispatchCallback` and, if it wins the flag,
    through `drainCallbacks`. Each of its atomic actions is one step, so other agents may
    act between any two of them. The executor runs every task it accepts; a rejected task
    runs on a thread of its own, which is the same agent here. */
module Callbacks {
  import opened Common

  datatype Callback<T> = OnNext(item: T) | OnTerminal(failed: bool) | Wakeup

  datatype Agent<T> =
    | AtFlag                             // callback queued, about to compare-and-set the flag
    | Polling                            // holds the flag, about to poll
    | Running(callback: Callback<T>)     // holds the flag, inside a callback
    | Clearing                           // holds the flag, saw an empty queue
    | Checking                           // cleared the flag, about to look at the queue again
    | Finished

  /** `added` and `started` are the histories of queued and of polled callbacks. */
  datatype Drain<T> = Drain(queue: seq<Callback<T>>, draining: bool, agents: seq<Agent<T>>,
                            added: seq<Callback<T>>, started: seq<Callback<T>>)

  datatype Action = Flag | Poll | Return | Clear | Check

  predicate Holds<T>(agent: Agent<T>) {
    agent.Polling? || agent.Running? || agent.Clearing?
  }

  predicate CanAct<T>(d: Drain<T>, a: nat, action: Action) {
    a < |d.agents| &&
    match action
    case Flag => d.agents[a].AtFlag?
    case Poll => d.agents[a].Polling?
    case Return => d.agents[a].Running?
    case Clear => d.agents[a].Clearing?
    case Check => d.agents[a].Checking?
  }

  function Become<T>(d: Drain<T>, a: nat, agent: Agent<T>): Drain<T>
    requires a < |d.agents|
  {
    d.(agents := d.agents[a := agent])
  }

  function Enqueue<T>(d: Drain<T>, callback: Callback<T>): Drain<T> {
    d.(queue := d.queue + [callback], added := d.added + [callback])
  }

  /** `dispatchCallback` up to the queue insertion, by a new agent. */
  function Dispatch<T>(d: Drain<T>, callback: Callback<T>): Drain<T> {
    Enqueue(d, callback).(agents := d.agents + [AtFlag])
  }

  function Act<T>(d: Drain<T>, a: nat, action: Action): Drain<T>
    requires CanAct(d, a, action)
  {
    match action
    case Flag => if d.draining then Become(d, a, Finished) else Become(d, a, Polling).(draining := true)
    case Poll =>
      if d.queue == [] then Become(d, a, Clearing)
      else Become(d, a, Running(d.queue[0])).(queue := d.queue[1..], started := d.started + [d.queue[0]])
    case Return => Become(d, a, Polling)
    case Clear => Become(d, a, Checking).(draining := false)
    case Check => if d.queue == [] then Become(d, a, Finished) else Become(Enqueue(d, Wakeup), a, AtFlag)
  }

  // ---------------------------------------------------------------------------
  // What always holds

  ghost predicate OneHolder<T>(d: Drain<T>) {
    && (forall a, b :: 0 <= a < |d.agents| && 0 <= b < |d.agents| && Holds(d.agents[a]) && Holds(d.agents[b]) ==>
         a == b)
    && (d.draining <==> exists a :: 0 <= a < |d.agents| && Holds(d.agents[a]))
  }

  /** Somebody will still look at the queue. */
  ghost predicate Attended<T>(d: Drain<T>) {
    d.draining || exists a :: 0 <= a < |d.agents| && (d.agents[a].AtFlag? || d.agents[a].Checking?)
  }

  ghost predicate DrainInv<T>(d: Drain<T>) {
    && OneHolder(d)
    && (d.queue != [] ==> Attended(d))
    && d.added == d.started + d.queue
  }

  lemma DispatchKeepsInv<T>(d: Drain<T>, callback: Callback<T>)
    requires DrainInv(d)
    ensures DrainInv(Dispatch(d, callback))
  {
    var e := Dispatch(d, callback);
    assert forall a :: 0 <= a < |d.agents| ==> e.agents[a] == d.agents[a];
    assert e.agents[|d.agents|].AtFlag?;
  }

  lemma ActKeepsHolder<T>(d: Drain<T>, a: nat, action: Action)
    requires OneHolder(d) && CanAct(d, a, action)
    ensures OneHolder(Act(d, a, action))
  {
    var e := Act(d, a, action);
    assert forall b :: 0 <= b < |d.agents| && b != a ==> e.agents[b] == d.agents[b];
    assert Holds(d.agents[a]) ==> d.draining;
    assert Holds(e.agents[a]) ==> e.draining;
    if e.draining && !Holds(e.agents[a]) {
      var b :| 0 <= b < |d.agents| && Holds(d.agents[b]);
      assert Holds(e.agents[b]);
    }
  }

  lemma ActKeepsInv<T>(d: Drain<T>, a: nat, action: Action)
    requires DrainInv(d) && CanAct(d, a, action)
    ensures DrainInv(Act(d, a, action))
  {
    ActKeepsHolder(d, a, action);
    var e := Act(d, a, action);
    // Only an agent that has just cleared the flag, or is about to retry it, can leave the flag down.
    assert !action.Clear? && !action.Check? ==> e.draining;
    assert action.Clear? ==> e.agents[a].Checking?;
    assert action.Check? && d.queue != [] ==> e.agents[a].AtFlag?;
  }

  // ---------------------------------------------------------------------------
  // What it means

  /** When no agent has anything left to do, every queued callback has been started. */
  lemma NothingStranded<T>(d: Drain<T>)
    requires DrainInv(d)
    requires forall a :: 0 <= a < |d.agents| ==> d.agents[a].Finished?
    ensures d.queue == [] && d.started == d.added
  {
  }

  // ---------------------------------------------------------------------------
  // The queue is always drained

  /** How many more actions an agent can take, while the queue is empty and while it is not. */
  function Quiet<T>(agent: Agent<T>): int {
    match agent
    case AtFlag => 4
    case Polling => 3
    case Running(_) => 4
    case Clearing => 2
    case Checking => 1
    case Finished => 0
  }

  function Busy<T>(agent: Agent<T>): int {
    match agent
    case AtFlag => 2
    case Polling => 1
    case Running(_) => 2
    case Clearing => 6
    case Checking => 5
    case Finished => 0
  }

  function ActionsLeft<T>(d: Drain<T>): int {
    if d.queue == [] then Sum(d.agents, Quiet) else 2 * |d.queue| + Sum(d.agents, Busy) + 4 * |d.agents|
  }

  lemma {:induction false} QuietBounds<T>(agents: seq<Agent<T>>)
    ensures 0 <= Sum(agents, Quiet) <= 4 * |agents| && 0 <= Sum(agents, Busy)
  {
    if agents != [] {
      QuietBounds(agents[1..]);
    }
  }

  /** Without new callbacks every action brings the end nearer. */
  lemma ActDescends<T>(d: Drain<T>, a: nat, action: Action)
    requires CanAct(d, a, action)
    ensures 0 <= ActionsLeft(Act(d, a, action)) < ActionsLeft(d)
  {
    var e := Act(d, a, action);
    QuietBounds(d.agents);
    QuietBounds(e.agents);
    if d.queue == [] {
      SumUpdate(d.agents, a, e.agents[a], Quiet);
    } else {
      SumUpdate(d.agents, a, e.agents[a], Busy);
      BusyDescends(d, a, action);
    }
  }

  lemma BusyDescends<T>(d: Drain<T>, a: nat, action: Action)
    requires CanAct(d, a, action) && d.queue != []
    ensures var e := Act(d, a, action);
      && |e.agents| == |d.agents| && |e.queue| + 1 >= |d.queue|
      && 2 * |e.queue| + Busy(e.agents[a]) < 2 * |d.queue| + Busy(d.agents[a])
  {
  }

  lemma CanActUnlessFinished<T>(d: Drain<T>, a: nat)
    requires a < |d.agents| && forall action :: !CanAct(d, a, action)
    ensures d.agents[a].Finished?
  {
    assert !CanAct(d, a, Flag) && !CanAct(d, a, Poll) && !CanAct(d, a, Return) && !CanAct(d, a, Clear);
    assert !CanAct(d, a, Check);
  }

  ghost predicate Schedule<T>(drains: seq<Drain<T>>, actions: seq<(nat, Action)>) {
    && |drains| == |actions| + 1
    && forall i :: 0 <= i < |actions| ==>
         CanAct(drains[i], actions[i].0, actions[i].1) && drains[i + 1] == Act(drains[i], actions[i].0, actions[i].1)
  }

  lemma {:induction false} ScheduleKeeps<T>(drains: seq<Drain<T>>, actions: seq<(nat, Action)>, i: nat)
    requires Schedule(drains, actions) && DrainInv(drains[0]) && i < |drains|
    ensures DrainInv(drains[i]) && drains[0].added <= drains[i].added
    ensures i + ActionsLeft(drains[i]) <= ActionsLeft(drains[0])
  {
    if i > 0 {
      ScheduleKeeps(drains, actions, i - 1);
      var (a, action) := actions[i - 1];
      assert drains[i - 1 + 1] == Act(drains[i - 1], a, action);
      ActKeepsInv(drains[i - 1], a, action);
      ActDescends(drains[i - 1], a, action);
    }
  }

  /** However the agents are scheduled, they come to an end after boundedly many actions, and
      then every callback has been started. */
  lemma EveryScheduleDrains<T>(drains: seq<Drain<T>>, actions: seq<(nat, Action)>)
    requires Schedule(drains, actions) && DrainInv(drains[0])
    ensures |actions| <= ActionsLeft(drains[0])
    ensures var last := drains[|actions|];
      (forall a, action :: !CanAct(last, a, action)) ==>
        last.queue == [] && last.started == last.added && drains[0].added <= last.started
  {
    ScheduleKeeps(drains, actions, |actions|);
    var last := drains[|actions|];
    QuietBounds(last.agents);
    if forall a, action :: !CanAct(last, a, action) {
      forall a | 0 <= a < |last.agents| ensures last.agents[a].Finished? {
        CanActUnlessFinished(last, a);
      }
      NothingStranded(last);
    }
  }
}
