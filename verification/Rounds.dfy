/** Runs in which every switch goes round the ring: the ring of tasks and the context switches together.  A task
    that is switched out gets the processor back in bounded time, and then has the context it gave up. */
module Rounds {
  import opened ContextSwitch
  import opened ContextSwitchRuns
  import opened ContextResumes
  import opened KernelTasks
  import TaskRing

  /** What an event of the processor is to the ring. */
  function Advance(r: TaskRing.Ring, e: Event): TaskRing.Ring {
    match e
    case Switch(_, _, _) => TaskRing.Step(r, TaskRing.Switch)
    case Create(_, _, entry) => TaskRing.Step(r, TaskRing.Create(entry, true))
    case Clone(_, _, entry, _, _) => TaskRing.Step(r, TaskRing.Clone(entry))
    case _ => r
  }

  /** The ring after the first n events. */
  function RingAt(events: seq<Event>, n: nat): TaskRing.Ring
    requires n <= |events|
  {
    if n == 0 then TaskRing.Ring([], 0, 0) else Advance(RingAt(events, n - 1), events[n - 1])
  }

  /** A run in which every switch is KernelSwitchProcess's own choice. */
  ghost predicate RoundRun(states: seq<System>, events: seq<Event>, room: nat) {
    && Run(states, events, room)
    && forall i | 0 <= i < |events| && events[i].Switch? ::
         events[i].next == RoundRobin(states[i].current, |states[i].tasks|)
  }

  lemma SameChoice(r: TaskRing.Ring)
    requires |r.tasks| > 1
    ensures TaskRing.Switched(r).current == RoundRobin(r.current, |r.tasks|)
  {
  }

  lemma AdvanceOk(r: TaskRing.Ring, e: Event)
    requires TaskRing.RingOk(r)
    ensures TaskRing.RingOk(Advance(r, e)) && r.tasks <= Advance(r, e).tasks
  {
    hide TaskRing.RingOk, TaskRing.Step;
    match e
    case Switch(_, _, _) => TaskRing.StepOk(r, TaskRing.Switch);
    case Create(_, _, entry) => TaskRing.StepOk(r, TaskRing.Create(entry, true));
    case Clone(_, _, entry, _, _) => TaskRing.StepOk(r, TaskRing.Clone(entry));
    case _ =>
  }

  /** At every point the processor's tasks are those of the ring, in its order, and the same one is current. */
  lemma {:induction false} RingFollows(states: seq<System>, events: seq<Event>, room: nat, n: nat)
    requires RoundRun(states, events, room) && n <= |events|
    ensures |states| == |events| + 1 && TaskRing.RingOk(RingAt(events, n))
    ensures RingAt(events, n).current == states[n].current && |RingAt(events, n).tasks| == |states[n].tasks|
  {
    hide Run, FrameAt, CloneStackAt, SwitchEffect, Called, TrapEffect, Kept, Separate, TaskRing.RingOk;
    RunLength(states, events, room);
    if n > 0 {
      RingFollows(states, events, room, n - 1);
      StepOf(states, events, room, n - 1);
      RunLocates(states, events, room, n - 1);
      AdvanceOk(RingAt(events, n - 1), events[n - 1]);
    } else {
      TaskRing.EmptyRingOk();
      StartsEmpty(states, events, room);
    }
  }

  lemma StartsEmpty(states: seq<System>, events: seq<Event>, room: nat)
    requires Run(states, events, room)
    ensures states[0].tasks == [] && states[0].current == 0
  {
  }

  /** How many switches there are from n on. */
  function Turns(events: seq<Event>, n: nat): nat
    requires n <= |events|
    decreases |events| - n
  {
    if n == |events| then 0 else (if events[n].Switch? then 1 else 0) + Turns(events, n + 1)
  }

  /** How many creations there are from n on. */
  function Births(events: seq<Event>, n: nat): nat
    requires n <= |events|
    decreases |events| - n
  {
    if n == |events| then 0 else (if events[n].Create? || events[n].Clone? then 1 else 0) + Births(events, n + 1)
  }

  lemma WaitsPositive(r: TaskRing.Ring, t: nat)
    requires TaskRing.RingOk(r) && t < |r.tasks| && t != r.current
    ensures TaskRing.Distance(r, t) > 0
  {
  }

  /** A task that is not running is switched to within its distance round the ring plus one for each later
      creation, counted in switches. */
  lemma {:induction false} SwitchedTo(states: seq<System>, events: seq<Event>, room: nat, n: nat, t: nat)
      returns (j: nat)
    requires RoundRun(states, events, room) && n <= |events| && TaskRing.RingOk(RingAt(events, n))
    requires t < |RingAt(events, n).tasks| && t != RingAt(events, n).current
    requires Turns(events, n) >= TaskRing.Distance(RingAt(events, n), t) + Births(events, n)
    ensures n <= j < |events| && events[j].Switch? && events[j].next == t && NotResumed(events, n, j, t)
    decreases |events| - n
  {
    hide Run, Next, TaskRing.RingOk;
    RingFollows(states, events, room, n);
    var r := RingAt(events, n);
    if n == |events| {
      WaitsPositive(r, t);
      assert false;
    }
    if events[n].Switch? && events[n].next == t {
      return n;
    }
    RingFollows(states, events, room, n + 1);
    AdvanceOk(r, events[n]);
    DistanceAdvance(states, events, room, n, t);
    j := SwitchedTo(states, events, room, n + 1, t);
  }

  /** A switch to another task brings a waiting task one nearer; a creation takes it at most one away. */
  lemma DistanceAdvance(states: seq<System>, events: seq<Event>, room: nat, n: nat, t: nat)
    requires RoundRun(states, events, room) && n < |events|
    requires TaskRing.RingOk(RingAt(events, n)) && TaskRing.RingOk(RingAt(events, n + 1))
    requires t < |RingAt(events, n).tasks| <= |RingAt(events, n + 1).tasks| && t != RingAt(events, n).current
    requires events[n].Switch? ==> events[n].next != t
    ensures t != RingAt(events, n + 1).current
    ensures TaskRing.Distance(RingAt(events, n + 1), t)
         <= TaskRing.Distance(RingAt(events, n), t) + (if events[n].Switch? then -1
                                                        else if events[n].Create? || events[n].Clone? then 1 else 0)
  {
    hide Run, Next, TaskRing.RingOk;
    RingFollows(states, events, room, n);
    var r := RingAt(events, n);
    AdvanceOk(r, events[n]);
    match events[n]
    case Switch(_, _, _) =>
      SameChoice(r);
      TaskRing.DistanceStep(r, TaskRing.Switch, t);
    case Create(_, _, entry) => TaskRing.DistanceStep(r, TaskRing.Create(entry, true), t);
    case Clone(_, _, entry, _, _) => TaskRing.DistanceStep(r, TaskRing.Clone(entry), t);
    case _ =>
  }

  /** In every run of this kind, a task that is switched out is switched to again after at most as many switches
      as there are other tasks and later creations; and it then goes on with the context it gave up, if its frame
      is private or no kernel code ran below `rsp0` in between. */
  lemma RoundResumes(states: seq<System>, events: seq<Event>, room: nat, i: nat) returns (j: nat)
    requires RoundRun(states, events, room) && i < |events| && events[i].Switch?
    requires |states| == |events| + 1 && states[i].current < |states[i].on|
    requires Turns(events, i + 1) >= |states[i].tasks| - 1 + Births(events, i + 1)
    ensures i < j < |events| && events[j].Switch? && events[j].next == states[i].current
    ensures NotResumed(events, i, j, states[i].current)
    ensures Private(states[i]) || (forall n | i < n <= j :: OffEntry(states[n])) ==>
              ResumedAs(states[j + 1]) == Given(states[i], events[i].back)
  {
    hide Run, Private, OffEntry, Given, ResumedAs, TaskRing.RingOk;
    var t := states[i].current;
    AfterSwitch(states, events, room, i);
    j := SwitchedTo(states, events, room, i + 1, t);
    if Private(states[i]) || forall n | i < n <= j :: OffEntry(states[n]) {
      ResumeFindsContext(states, events, room, i, j);
    }
  }

  /** Just after it was switched out a task waits for all the others. */
  lemma AfterSwitch(states: seq<System>, events: seq<Event>, room: nat, i: nat)
    requires RoundRun(states, events, room) && i < |events| && events[i].Switch?
    ensures |states| == |events| + 1 && TaskRing.RingOk(RingAt(events, i + 1))
    ensures states[i].current < |RingAt(events, i + 1).tasks| && states[i].current != RingAt(events, i + 1).current
    ensures TaskRing.Distance(RingAt(events, i + 1), states[i].current) == |states[i].tasks| - 1
    ensures events[i].next != states[i].current
  {
    hide Run, TaskRing.RingOk, SwitchEffect, Called, StackOf, Kept;
    RingFollows(states, events, room, i);
    RingFollows(states, events, room, i + 1);
    StepOf(states, events, room, i);
    AdvanceOk(RingAt(events, i), events[i]);
    SameChoice(RingAt(events, i));
    TaskRing.DistanceStep(RingAt(events, i), TaskRing.Switch, states[i].current);
  }
}
