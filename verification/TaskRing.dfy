/** The ring of tasks, the token list, and round robin: the linked structures as the kernel keeps them,
    each routine proved against an abstract ring of tasks. */
module TaskRing {

  /** What creation fixes about a task: its id, entry point, whether its token grants access to the
      root directory, and whether its working directory is the root (else it is null). */
  datatype Task = Task(id: int, rip: int, privileged: bool, atRoot: bool)

  /** The tasks in ring order from `first_task`, which one is current, and the last id given out. */
  datatype Ring = Ring(tasks: seq<Task>, current: nat, lastId: int)

  // ----- The abstract ring -----

  ghost predicate RingOk(r: Ring) {
    && (if r.tasks == [] then r.current == 0 else r.current < |r.tasks|)
    && (forall i | 0 <= i < |r.tasks| :: 1 <= r.tasks[i].id <= r.lastId)
    && (forall i, j | 0 <= i < j < |r.tasks| :: r.tasks[i].id < r.tasks[j].id)
    && 0 <= r.lastId
  }

  /** KernelCheckToken(1): no current task, or a current task whose token grants access. */
  function MayAccessRoot(r: Ring): bool {
    r.tasks == [] || (r.current < |r.tasks| && r.tasks[r.current].privileged)
  }

  /** A new task goes to the end of the ring, just before `first_task`. */
  function Created(r: Ring, rip: int, privileged: bool): Ring {
    Ring(r.tasks + [Task(r.lastId + 1, rip, privileged, MayAccessRoot(r))], r.current, r.lastId + 1)
  }

  function Switched(r: Ring): Ring {
    if |r.tasks| < 2 then r
    else r.(current := if r.current + 1 < |r.tasks| then r.current + 1 else 0)
  }

  // ----- The linked structures -----

  /** A list cell together with the task structure it points to. */
  class TaskNode {
    const id: int
    const rip: int
    const token: TokenNode
    const atRoot: bool
    var next: TaskNode?

    constructor (id: int, rip: int, token: TokenNode, atRoot: bool)
      ensures this.id == id && this.rip == rip && this.token == token && this.atRoot == atRoot && next == null
    {
      this.id := id;
      this.rip := rip;
      this.token := token;
      this.atRoot := atRoot;
      next := null;
    }

    ghost function View(): Task {
      Task(id, rip, token.canAccessRoot, atRoot)
    }
  }

  ghost function Views(ns: seq<TaskNode>): (r: seq<Task>)
    ensures |r| == |ns| && forall i | 0 <= i < |ns| :: r[i] == ns[i].View()
  {
    seq(|ns|, i requires 0 <= i < |ns| => ns[i].View())
  }

  lemma ViewsAppend(ns: seq<TaskNode>, n: TaskNode)
    ensures Views(ns + [n]) == Views(ns) + [n.View()]
  {
  }

  class TokenNode {
    const id: int
    const canAccessRoot: bool
    var next: TokenNode?

    constructor (id: int, canAccessRoot: bool)
      ensures this.id == id && this.canAccessRoot == canAccessRoot && next == null
    {
      this.id := id;
      this.canAccessRoot := canAccessRoot;
      next := null;
    }
  }

  /** The bit of the permission word that a token keeps. */
  predicate TokenBit(permissions: bv64) { ((permissions & 0xFF) as bv8) & 1 == 1 }

  /** Whether a token has every bit of the permission asked for. */
  predicate Grants(canAccessRoot: bool, permission: bv8) {
    (if canAccessRoot then 1 else 0) & permission == permission
  }

  /** A token keeps the lowest bit of the permissions it is made with, and grants that and nothing else. */
  lemma TokenMeaning(permissions: bv64, permission: bv8)
    ensures TokenBit(permissions) <==> permissions & 1 == 1
    ensures Grants(TokenBit(permissions), permission) <==> permission == 0 || (permission == 1 && permissions & 1 == 1)
  {
  }

  lemma GrantsRoot(canAccessRoot: bool)
    ensures Grants(canAccessRoot, 1) == canAccessRoot
  {
  }

  class Scheduler {
    var first: TaskNode?
    var prev: TaskNode?
    var current: TaskNode?
    var processId: int
    var tokens: TokenNode?
    ghost var nodes: seq<TaskNode>
    ghost var dict: seq<TokenNode>
    ghost var position: nat

    ghost function View(): Ring
      reads `nodes, `position, `processId
    {
      Ring(Views(nodes), position, processId)
    }

    /** One task: a list of one cell.  More: a single cycle through all of them. */
    ghost predicate RingLinked()
      reads `nodes, `first, `current, `position, nodes
    {
      && (forall i, j | 0 <= i < j < |nodes| :: nodes[i] != nodes[j])
      && (forall i | 0 <= i < |nodes| - 1 :: nodes[i].next == nodes[i + 1])
      && (nodes == [] ==> first == null && current == null && position == 0)
      && (nodes != [] ==> first == nodes[0] && position < |nodes| && current == nodes[position])
      && (|nodes| == 1 ==> nodes[0].next == null)
      && (|nodes| > 1 ==> nodes[|nodes| - 1].next == first)
    }

    ghost predicate TokensLinked()
      reads `dict, `tokens, dict
    {
      && (forall i, j | 0 <= i < j < |dict| :: dict[i] != dict[j])
      && (forall i | 0 <= i < |dict| - 1 :: dict[i].next == dict[i + 1])
      && (dict == [] ==> tokens == null)
      && (dict != [] ==> tokens == dict[0] && dict[|dict| - 1].next == null)
    }

    ghost predicate Valid()
      reads this, nodes, dict
    {
      && RingLinked() && TokensLinked() && RingOk(View())
      && (forall n | n in nodes :: n.token in dict)
    }

    /** Before the first creation all lists are empty. */
    constructor ()
      ensures Valid() && View() == Ring([], 0, 0) && dict == []
    {
      first, prev, current, processId, tokens := null, null, null, 0, null;
      nodes, dict, position := [], [], 0;
    }

    lemma NextToken(i: nat)
      requires TokensLinked() && i < |dict|
      ensures dict[i].next == if i + 1 < |dict| then dict[i + 1] else null
    {
    }

    lemma NextTask(i: nat)
      requires RingLinked() && i < |nodes|
      ensures nodes[i].next == if i + 1 < |nodes| then nodes[i + 1] else if i == 0 then null else first
      ensures 0 < i ==> nodes[i] != first
    {
    }

    method LastToken() returns (last: TokenNode)
      requires TokensLinked() && tokens != null
      ensures dict != [] && last == dict[|dict| - 1]
    {
      last := tokens;
      ghost var i := 0;
      NextToken(0);
      while last.next != null
        invariant i < |dict| && last == dict[i] && last.next == if i + 1 < |dict| then dict[i + 1] else null
        decreases |dict| - i
      {
        last := last.next;
        i := i + 1;
        NextToken(i);
      }
    }

    method AppendToken(t: TokenNode)
      requires TokensLinked() && t !in dict && t.next == null
      modifies `tokens, `dict, dict
      ensures TokensLinked() && dict == old(dict) + [t]
    {
      if tokens == null {
        tokens := t;
      } else {
        var last := LastToken();
        last.next := t;
      }
      dict := dict + [t];
    }

    /** KernelGetTokenForProcess. */
    method GetTokenForProcess(id: int, permissions: bv64) returns (t: TokenNode)
      requires Valid()
      modifies `tokens, `dict, dict
      ensures Valid() && dict == old(dict) + [t] && fresh(t)
      ensures t.id == id && t.canAccessRoot == TokenBit(permissions)
    {
      hide TokenBit, RingOk, RingLinked, TokensLinked;
      t := new TokenNode(id, TokenBit(permissions));
      AppendToken(t);
    }

    /** The last cell of the list: the one without a successor, or whose successor is the first. */
    method LastTask() returns (last: TaskNode)
      requires RingLinked() && first != null
      ensures nodes != [] && last == nodes[|nodes| - 1]
    {
      last := first;
      ghost var i := 0;
      NextTask(0);
      while last.next != null
        invariant i < |nodes| && last == nodes[i]
        invariant last.next == if i + 1 < |nodes| then nodes[i + 1] else if i == 0 then null else first
        decreases |nodes| - i
      {
        if i + 1 < |nodes| {
          NextTask(i + 1);
        }
        if last.next == first {
          break;
        }
        last := last.next;
        i := i + 1;
      }
    }

    lemma SameId(i: nat, n: TaskNode)
      requires Valid() && i < |nodes| && n in nodes && n.id == nodes[i].id
      ensures n == nodes[i] && n.id >= 1
    {
      var j :| 0 <= j < |nodes| && nodes[j] == n;
      assert View().tasks[i].id == nodes[i].id && View().tasks[j].id == n.id;
    }

    lemma WrapsOnlyAfterAll(i: nat, id: int)
      requires RingLinked() && i < |nodes| && (forall j | 0 <= j <= i :: nodes[j].id != id)
      requires |nodes| > 1 ==> exists n :: n in nodes && n.id == id
      ensures i + 1 == |nodes| ==> nodes[i].next == null
    {
      assert |nodes| > 1 ==> i + 1 != |nodes|;
    }

    /** With two tasks or more every cell has a successor, so a search that never meets its id has no end. */
    lemma NoEndInCycle(n: TaskNode)
      requires RingLinked() && |nodes| > 1 && n in nodes
      ensures n.next != null && n.next in nodes
    {
      var i :| 0 <= i < |nodes| && nodes[i] == n;
      NextTask(i);
      assert nodes[0] in nodes && (i + 1 < |nodes| ==> nodes[i + 1] in nodes);
    }

    /** find_process.  In a cyclic list the search ends because the id is there. */
    method FindProcess(id: int) returns (task: TaskNode?)
      requires Valid() && (|nodes| > 1 ==> exists n :: n in nodes && n.id == id)
      ensures task != null ==> task in nodes && task.id == id
      ensures task == null ==> forall n | n in nodes :: n.id != id
    {
      hide RingOk, TokensLinked;
      var traversal := first;
      ghost var i := 0;
      while traversal != null
        invariant i <= |nodes| && (i == |nodes| ==> traversal == null)
        invariant i < |nodes| ==> traversal == nodes[i]
        invariant forall j | 0 <= j < i :: nodes[j].id != id
        decreases |nodes| - i
      {
        NextTask(i);
        if traversal.id == id {
          return traversal;
        }
        WrapsOnlyAfterAll(i, id);
        traversal := traversal.next;
        i := i + 1;
      }
      return null;
    }

    /** GetCurrentProcessId. */
    method CurrentId() returns (id: int)
      requires Valid()
      ensures id == if nodes == [] then 0 else nodes[position].id
    {
      id := if current == null then 0 else current.id;
    }

    /** KernelCheckToken. */
    method CheckToken(permission: bv8) returns (granted: bool)
      requires Valid()
      ensures granted <==> nodes == [] || Grants(nodes[position].token.canAccessRoot, permission)
    {
      hide Grants, RingOk, TokensLinked;
      var id := CurrentId();
      if current != null {
        SameId(position, current);
      }
      if id == 0 {
        return true;
      }
      assert current in nodes && current.id == id;
      var task := FindProcess(id);
      SameId(position, task);
      return Grants(task.token.canAccessRoot, permission);
    }

    /** ObjGetRootObject: the root directory, or null if the current task may not access it. */
    method GetRootObject() returns (isRoot: bool)
      requires Valid()
      ensures isRoot == MayAccessRoot(View())
    {
      hide Grants;
      isRoot := CheckToken(1);
      if nodes != [] {
        GrantsRoot(nodes[position].token.canAccessRoot);
      }
    }

    /** The new cell becomes the list, or goes between the last cell and the first. */
    method Append(task: TaskNode)
      requires RingLinked() && task !in nodes && task.next == null
      modifies `first, `current, `nodes, `position, nodes, task`next
      ensures RingLinked() && nodes == old(nodes) + [task] && position == if old(nodes) == [] then 0 else old(position)
    {
      if first == null {
        first := task;
        current := task;
        nodes, position := [task], 0;
        return;
      }
      var last := LastTask();
      task.next := first;
      last.next := task;
      nodes := nodes + [task];
    }

    /** How both creation routines end: a cell for the new task joins the list. */
    method Enlist(rip: int, token: TokenNode, atRoot: bool) returns (task: TaskNode)
      requires RingLinked()
      modifies `first, `current, `nodes, `position, nodes
      ensures RingLinked() && nodes == old(nodes) + [task] && fresh(task) && task.id == processId && task.token == token
      ensures View() == Ring(old(View()).tasks + [Task(processId, rip, token.canAccessRoot, atRoot)],
                             if old(nodes) == [] then 0 else old(position), processId)
    {
      hide RingLinked, Views;
      task := new TaskNode(processId, rip, token, atRoot);
      ViewsAppend(nodes, task);
      Append(task);
    }

    /** KernelInitializeProcess, the part that concerns the ring. */
    method InitializeProcess(rip: int, permissions: bv64)
      requires Valid() && processId < 0x7FFF_FFFF
      modifies this, nodes, dict
      ensures Valid() && View() == Created(old(View()), rip, TokenBit(permissions))
      ensures old(nodes) <= nodes
    {
      hide TokenBit, RingLinked, TokensLinked, RingOk, Views;
      ghost var r := View();
      CreatedOk(r, rip, TokenBit(permissions));
      processId := processId + 1;
      var token := GetTokenForProcess(processId, permissions);
      var atRoot := GetRootObject();
      var task := Enlist(rip, token, atRoot);
    }

    /** KernelCloneProcess, the part that concerns the ring; it is called by a task. */
    method CloneProcess(rip: int) returns (id: int)
      requires Valid() && processId < 0x7FFF_FFFF && first != null
      modifies this, nodes, dict
      ensures Valid() && View() == Created(old(View()), rip, true) && id == View().lastId
      ensures old(nodes) <= nodes
    {
      hide TokenBit, RingLinked, TokensLinked, RingOk, Views;
      ghost var r := View();
      CreatedOk(r, rip, true);
      processId := processId + 1;
      var token := GetTokenForProcess(processId, 1);
      assert TokenBit(1) by { OneIsSet(); }
      var atRoot := GetRootObject();
      var task := Enlist(rip, token, atRoot);
      return task.id;
    }

    lemma OneIsSet()
      ensures TokenBit(1)
    {
    }

    lemma CurrentLinked()
      requires RingLinked()
      ensures if nodes == [] then first == null && current == null && position == 0
              else first == nodes[0] && position < |nodes| && current == nodes[position]
    {
    }

    /** The links do not depend on which task is current. */
    twostate lemma StillLinked()
      requires old(RingLinked()) && nodes == old(nodes) && first == old(first) && nodes != []
      requires forall n | n in nodes :: n.next == old(n.next)
      requires position < |nodes| && current == nodes[position]
      ensures RingLinked()
    {
    }

    /** KernelSwitchProcess, the part that concerns the ring. */
    method SwitchProcess()
      requires Valid()
      modifies `prev, `current, `position
      ensures Valid() && View() == Switched(old(View()))
      ensures |nodes| > 1 ==> prev == old(current)
    {
      hide RingOk, TokensLinked, RingLinked;
      CurrentLinked();
      if current == null {
        return;
      }
      NextTask(position);
      if current.next == null {
        return;
      }
      label Before:
      prev := current;
      current := current.next;
      position := if position + 1 < |nodes| then position + 1 else 0;
      SwitchedOk(old(View()));
      StillLinked@Before();
    }
  }

  lemma SwitchedOk(r: Ring)
    requires RingOk(r)
    ensures RingOk(Switched(r))
  {
  }

  /** Ids stay distinct and increasing, with the newest task last. */
  lemma CreatedOk(r: Ring, rip: int, privileged: bool)
    requires RingOk(r)
    ensures RingOk(Created(r, rip, privileged)) && RingOk(r.(lastId := r.lastId + 1))
  {
  }

  // ----- Runs -----

  datatype Event = Switch | Create(rip: int, privileged: bool) | Clone(rip: int)

  function Step(r: Ring, e: Event): Ring {
    match e
    case Switch => Switched(r)
    case Create(rip, privileged) => Created(r, rip, privileged)
    case Clone(rip) => Created(r, rip, true)
  }

  function Exec(r: Ring, events: seq<Event>): Ring
    decreases |events|
  {
    if events == [] then r else Exec(Step(r, events[0]), events[1..])
  }

  function Switches(events: seq<Event>): (n: nat)
    ensures n <= |events|
  {
    if events == [] then 0 else (if events[0].Switch? then 1 else 0) + Switches(events[1..])
  }

  function Creations(events: seq<Event>): nat { |events| - Switches(events) }

  /** How many switches ahead of the current task task t is, going round the ring. */
  function Distance(r: Ring, t: nat): nat
    requires RingOk(r) && t < |r.tasks|
  {
    if t >= r.current then t - r.current else |r.tasks| - r.current + t
  }

  lemma StepOk(r: Ring, e: Event)
    requires RingOk(r)
    ensures RingOk(Step(r, e)) && r.tasks <= Step(r, e).tasks
  {
    hide RingOk;
    match e
    case Switch => SwitchedOk(r);
    case Create(rip, privileged) => CreatedOk(r, rip, privileged);
    case Clone(rip) => CreatedOk(r, rip, true);
  }

  /** The empty ring is well formed, so every ring reached from it is. */
  lemma StartOk(events: seq<Event>)
    ensures RingOk(Exec(Ring([], 0, 0), events))
  {
    hide RingOk;
    assert RingOk(Ring([], 0, 0)) by { EmptyRingOk(); }
    RunOk(Ring([], 0, 0), events);
  }

  lemma EmptyRingOk()
    ensures RingOk(Ring([], 0, 0))
  {
  }

  /** Over every run ids stay distinct and increasing, and no task moves, leaves or loses its token. */
  lemma {:induction false} RunOk(r: Ring, events: seq<Event>)
    requires RingOk(r)
    ensures RingOk(Exec(r, events)) && r.tasks <= Exec(r, events).tasks
    decreases |events|
  {
    hide RingOk;
    if events != [] {
      StepOk(r, events[0]);
      RunOk(Step(r, events[0]), events[1..]);
    }
  }

  /** A switch brings a waiting task one nearer; a creation puts it one further away exactly when the
      way to it crosses the link from the last task to the first. */
  lemma DistanceStep(r: Ring, e: Event, t: nat)
    requires RingOk(r) && t < |r.tasks| && RingOk(Step(r, e)) && r.tasks <= Step(r, e).tasks
    ensures Distance(Step(r, e), t)
         == if e.Switch? then
              (if t == r.current then (if |r.tasks| < 2 then 0 else |r.tasks| - 1) else Distance(r, t) - 1)
            else Distance(r, t) + (if t < r.current then 1 else 0)
  {
  }

  /** The task runs at some point of the run. */
  ghost predicate Runs(r: Ring, events: seq<Event>, t: nat) {
    exists k: nat | k <= |events| :: Exec(r, events[..k]).current == t
  }

  /** From any ring, a task runs after at most its distance plus the number of later creations,
      counted in switches. */
  lemma {:induction false} Fairness(r: Ring, events: seq<Event>, t: nat)
    requires RingOk(r) && t < |r.tasks|
    requires Switches(events) >= Distance(r, t) + Creations(events)
    ensures Runs(r, events, t)
    decreases |events|
  {
    if t == r.current {
      assert Exec(r, events[..0]).current == t;
    } else {
      var r' := Step(r, events[0]);
      StepOk(r, events[0]);
      DistanceStep(r, events[0], t);
      Fairness(r', events[1..], t);
      var k: nat :| k <= |events[1..]| && Exec(r', events[1..][..k]).current == t;
      assert events[..k + 1][1..] == events[1..][..k];
      assert Exec(r, events[..k + 1]).current == t;
    }
  }

  /** A new task gets the next id and the given entry point, and its working directory is the root exactly if the task
      that creates it may access the root; a clone may always access it. */
  lemma CreatedTask(r: Ring, e: Event)
    requires RingOk(r) && !e.Switch?
    ensures var r' := Step(r, e);
            && |r'.tasks| == |r.tasks| + 1 && r'.tasks[|r.tasks|].id == r.lastId + 1 == r'.lastId
            && r'.tasks[|r.tasks|].rip == e.rip && r'.current == r.current
            && (r'.tasks[|r.tasks|].atRoot <==> r.tasks == [] || r.tasks[r.current].privileged)
            && (r'.tasks[|r.tasks|].privileged <==> e.Clone? || e.privileged)
  {
  }

  /** KernelCheckToken(1) answers for the current task exactly what its creation granted, however many
      tasks and tokens were added since. */
  lemma CheckRemembersCreation(r: Ring, e: Event, events: seq<Event>)
    requires RingOk(r) && !e.Switch?
    requires Exec(Step(r, e), events).current == |r.tasks|
    ensures MayAccessRoot(Exec(Step(r, e), events)) <==> e.Clone? || e.privileged
  {
    hide RingOk;
    StepOk(r, e);
    RunOk(Step(r, e), events);
  }
}
