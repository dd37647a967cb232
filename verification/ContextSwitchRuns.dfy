/** Runs of one processor from boot on: arbitrary activity of the running code, entries from user mode and
    returns to it, switches to any other task, and creations.  Each task owns some words of memory (its
    stack) and the cell of its task structure that holds the saved stack pointer.  The first creation makes
    the running boot code the current task, on the stack it already has.  Every entry from user mode, of
    whatever task, starts at the one address `rsp0`, which lies in the boot stack. */
module ContextSwitchRuns {
  import opened ContextSwitch

  datatype Task = Task(address: int, area: iset<int>)

  /** Where the kernel code of a task runs: on the stack made for it, or below `rsp0`. */
  datatype Stack = Own | Entry

  /** `boot` is the stack that the boot code runs on, `user` whether the running code is in user mode, and
      `on` the stack that each task's kernel code runs or was switched out on. */
  datatype System = System(cpu: Cpu, tasks: seq<Task>, current: nat, boot: iset<int>, rsp0: int, user: bool,
                           on: seq<Stack>)

  datatype Event =
    | Work                                                       // whatever the running code does
    | Leave                                                      // a return to user mode
    | Enter(trap: Trap)                                          // an interrupt or system call in user mode
    | Switch(next: nat, back: Word, room: nat)                   // KernelSwitchProcess, called from `back`
    | Create(task: Task, top: int, entry: Word)                  // KernelInitializeProcess
    | Clone(task: Task, top: int, entry: Word, userStack: Word, resumeUser: Word)  // KernelCloneProcess

  /** The cell of a task structure that holds the saved stack pointer. */
  function Cell(t: Task): int { t.address + 8 }

  ghost predicate Owns(t: Task, a: int) { a in t.area || a == Cell(t) }

  /** No word belongs to two tasks, and no stack holds its own task structure's cell. */
  ghost predicate Separate(tasks: seq<Task>) {
    && (forall i, j, a | 0 <= i < |tasks| && 0 <= j < |tasks| && Owns(tasks[i], a) && Owns(tasks[j], a) :: i == j)
    && (forall i | 0 <= i < |tasks| :: Cell(tasks[i]) !in tasks[i].area)
  }

  /** The words from lo up to hi lie on the task's own stack. */
  ghost predicate OnStack(t: Task, lo: int, hi: int) { forall a | lo <= a < hi :: a in t.area }

  ghost predicate Valid(s: System) {
    && Separate(s.tasks) && !s.cpu.lock && |s.on| == |s.tasks|
    && (if s.tasks == [] then s.current == 0 && !s.user
        else s.current < |s.tasks| && s.tasks[0].area == s.boot)
  }

  /** The boot code runs, and there is no task yet. */
  ghost predicate Booting(s: System) {
    s.tasks == [] && s.on == [] && s.current == 0 && !s.cpu.lock && !s.user
  }

  /** A word below the address where entries from user mode start. */
  ghost predicate OnEntry(s: System, a: int) { a in s.boot && a < s.rsp0 }

  /** A word of the stack that task t's kernel code is on. */
  ghost predicate StackOf(s: System, t: nat, a: int)
    requires t < |s.tasks| == |s.on|
  {
    if s.on[t] == Own then a in s.tasks[t].area else OnEntry(s, a)
  }

  /** The running code may write this word.  In the kernel: it is the current task's, or the current task has
      entered from user mode and the word lies below `rsp0`.  In user mode: the first task's program, which
      `switch_to_user` starts on the boot stack, may write there; clones have user stacks of their own. */
  ghost predicate Touches(s: System, a: int) {
    && s.current < |s.tasks| == |s.on|
    && if s.user then s.current == 0 && a in s.boot
       else Owns(s.tasks[s.current], a) || (s.on[s.current] == Entry && OnEntry(s, a))
  }

  /** The running code writes no word of the switch frame at sp. */
  ghost predicate Clear(s: System, sp: int) { forall a | sp <= a < sp + 56 :: !Touches(s, a) }

  /** The saved stack pointer of a task. */
  function Pointer(s: System, t: nat): int
    requires t < |s.tasks|
  {
    Load(s.cpu.mem, Cell(s.tasks[t]))
  }

  /** Task t's saved pointer is that of a switch frame on its stack, with `room` bytes below it. */
  ghost predicate Located(s: System, t: nat, room: nat)
    requires t < |s.tasks| == |s.on|
  {
    forall a | Pointer(s, t) - room <= a < Pointer(s, t) + 56 :: StackOf(s, t, a)
  }

  /** KernelSwitchProcess up to the first instruction of `switch_task`: the lock is taken, the task
      structures are in rdi and rsi, and the call has pushed its return address. */
  ghost predicate Called(s: System, c: Cpu, next: nat, back: Word)
    requires s.current < |s.tasks| && next < |s.tasks|
  {
    && c.mem == s.cpu.mem[s.cpu.rsp - 8 := back] && c.rsp == s.cpu.rsp - 8
    && Get(c.regs, Rdi) == s.tasks[next].address && Get(c.regs, Rsi) == s.tasks[s.current].address
    && (forall r | !CallerSaved(r) :: Get(c.regs, r) == Get(s.cpu.regs, r))
    && c.lock && !c.interrupts
  }

  /** The step leaves alone every word of a task that the running code does not touch. */
  ghost predicate Kept(s: System, s': System) {
    forall t, a | 0 <= t < |s.tasks| && Owns(s.tasks[t], a) && !Touches(s, a) ::
      Load(s'.cpu.mem, a) == Load(s.cpu.mem, a)
  }

  ghost predicate SameTasks(s: System, s': System) { s'.tasks == s.tasks && s'.current == s.current }

  ghost predicate Next(s: System, e: Event, s': System) {
    && s'.boot == s.boot && s'.rsp0 == s.rsp0 && !s'.cpu.lock
    && match e
       case Work =>
         SameTasks(s, s') && s'.on == s.on && s'.user == s.user && Kept(s, s')
       case Leave =>
         SameTasks(s, s') && s'.on == s.on && s.tasks != [] && !s.user && s'.user && Kept(s, s')
       case Enter(trap) =>
         && SameTasks(s, s') && s.current < |s.on| && s'.on == s.on[s.current := Entry] && s.user && !s'.user
         && (forall a | s.rsp0 - TRAP_SIZE <= a < s.rsp0 :: a in s.boot)
         && TrapEffect(s.cpu, s'.cpu, trap, s.rsp0)
       case Switch(next, back, room) =>
         && s.current < |s.tasks| == |s.on| && next < |s.tasks| && next != s.current && !s.user && !s'.user
         && (forall a | s.cpu.rsp - 56 - room <= a < s.cpu.rsp :: StackOf(s, s.current, a))
         && s'.tasks == s.tasks && s'.on == s.on && s'.current == next
         && (exists c :: Called(s, c, next, back) && SwitchEffect(c, s'.cpu, room))
       case Create(task, top, entry) =>
         && !s.user && !s'.user && (if s.tasks == [] then AddsFirst(s, task, top, s') else Adds(s, task, s'))
         && FrameAt(s'.cpu.mem, top - 56, Context(0, 0, 0, 0, 0, 0, top, entry))
         && Load(s'.cpu.mem, Cell(task)) == top - 56
       case Clone(task, top, entry, userStack, resumeUser) =>
         && !s.user && !s'.user && s.tasks != [] && Adds(s, task, s')
         && CloneStackAt(s'.cpu.mem, top, entry, userStack, resumeUser)
         && Load(s'.cpu.mem, Cell(task)) == top - 232
  }

  /** A task is added whose memory belonged to no task. */
  ghost predicate Adds(s: System, task: Task, s': System) {
    && s'.tasks == s.tasks + [task] && s'.on == s.on + [Own] && s'.current == s.current
    && Separate(s'.tasks) && Kept(s, s')
  }

  /** The branch for an empty list: the new task is current at once, so its stack is from now on the one
      the boot code runs on; the stack built for it lies elsewhere. */
  ghost predicate AddsFirst(s: System, task: Task, top: int, s': System) {
    && s'.tasks == [Task(task.address, s.boot)] && s'.on == [Own] && s'.current == 0
    && Separate(s'.tasks)
    && (forall a | top - 56 <= a < top :: a !in s.boot)
  }

  /** The context a task gives up when it calls KernelSwitchProcess. */
  function Given(s: System, back: Word): Context { ContextOf(s.cpu.regs, s.cpu.rsp, back) }

  /** The context in which the code that was switched to goes on. */
  function ResumedAs(s: System): Context { ContextOf(s.cpu.regs, s.cpu.rsp, s.cpu.rip) }

  lemma NextKeepsValid(s: System, e: Event, s': System)
    requires Valid(s) && Next(s, e, s')
    ensures Valid(s') && |s'.tasks| >= |s.tasks| && forall t | 0 <= t < |s.tasks| :: s'.tasks[t] == s.tasks[t]
    ensures forall t | 0 <= t < |s.tasks| && t != s.current :: s'.on[t] == s.on[t]
  {
    hide FrameAt, CloneStackAt, Load, TrapEffect, SwitchEffect, Called, Kept;
  }

  // ----- Which words one step can change -----

  lemma StackIsNoCell(s: System, u: nat, t: nat, a: int)
    requires Valid(s) && u < |s.tasks| && t < |s.tasks| && StackOf(s, u, a)
    ensures a != Cell(s.tasks[t])
    ensures Owns(s.tasks[if s.on[u] == Own then u else 0], a)
  {
    if a == Cell(s.tasks[t]) {
      assert Owns(s.tasks[t], a) && Owns(s.tasks[if s.on[u] == Own then u else 0], a);
    }
  }

  lemma StackIsTouched(s: System, a: int)
    requires Valid(s) && s.tasks != [] && !s.user && StackOf(s, s.current, a)
    ensures Touches(s, a)
  {
  }

  /** A task other than the boot code keeps its own stack to itself, and every task its cell. */
  lemma OwnIsUntouched(s: System, t: nat, a: int)
    requires Valid(s) && t < |s.tasks| && t != s.current
    requires a == Cell(s.tasks[t]) || (t != 0 && a in s.tasks[t].area) || (a in s.tasks[t].area && a >= s.rsp0)
    ensures !Touches(s, a)
  {
    assert Owns(s.tasks[t], a);
    if a in s.boot {
      assert Owns(s.tasks[0], a);
    }
  }

  lemma SavedFrame(c: Cpu, sp: int)
    requires c.rsp == sp - 8 && !(sp - 56 <= Get(c.regs, Rsi) + 8 < sp)
    ensures FrameAt(Saved(c), sp - 56, ContextOf(c.regs, sp, Load(c.mem, sp - 8)))
    ensures Load(Saved(c), Get(c.regs, Rsi) + 8) == sp - 56
    ensures forall a | !(sp - 56 <= a < sp - 8) && a != Get(c.regs, Rsi) + 8 :: Load(Saved(c), a) == Load(c.mem, a)
  {
    hide Get;
  }

  /** Memory just before `unlock`: the old task's frame and stack pointer are saved, and nothing else has
      changed. */
  lemma CalledSaves(s: System, c: Cpu, next: nat, back: Word)
    requires Valid(s) && s.tasks != [] && next < |s.tasks| && Called(s, c, next, back)
    requires forall a | s.cpu.rsp - 56 <= a < s.cpu.rsp :: StackOf(s, s.current, a)
    ensures FrameAt(Saved(c), s.cpu.rsp - 56, Given(s, back))
    ensures Load(Saved(c), Cell(s.tasks[s.current])) == s.cpu.rsp - 56
    ensures forall a | !(s.cpu.rsp - 56 <= a < s.cpu.rsp) && a != Cell(s.tasks[s.current]) ::
              Load(Saved(c), a) == Load(s.cpu.mem, a)
  {
    hide Saved, Get, StackOf, Separate;
    var cell, sp := Cell(s.tasks[s.current]), s.cpu.rsp;
    if sp - 56 <= cell < sp {
      StackIsNoCell(s, s.current, s.current, cell);
    }
    SavedFrame(c, sp);
    assert ContextOf(c.regs, sp, back) == Given(s, back);
  }

  /** A frame and a memory determine the context. */
  lemma FrameUnique(mem: Memory, sp: int, k: Context, k': Context)
    requires FrameAt(mem, sp, k) && FrameAt(mem, sp, k')
    ensures k == k'
  {
  }

  lemma FrameKept(mem: Memory, mem': Memory, sp: int, k: Context)
    requires FrameAt(mem, sp, k) && forall a | sp <= a < sp + 56 :: Load(mem', a) == Load(mem, a)
    ensures FrameAt(mem', sp, k)
  {
    hide Load;
  }

  /** Every task but the running one has a located frame. */
  ghost predicate AllLocated(s: System, room: nat) {
    |s.on| == |s.tasks| && forall t | 0 <= t < |s.tasks| && t != s.current :: Located(s, t, room)
  }

  lemma NextPointer(s: System, c: Cpu, next: nat, back: Word)
    requires Valid(s) && s.tasks != [] && next < |s.tasks| && next != s.current && Called(s, c, next, back)
    requires forall a | s.cpu.rsp - 56 <= a < s.cpu.rsp :: StackOf(s, s.current, a)
    ensures Load(Saved(c), Get(c.regs, Rdi) + 8) == Pointer(s, next)
  {
    hide Load, Get, Saved, FrameAt, StackOf;
    CalledSaves(s, c, next, back);
    if s.cpu.rsp - 56 <= Cell(s.tasks[next]) < s.cpu.rsp {
      StackIsNoCell(s, s.current, next, Cell(s.tasks[next]));
    }
    assert Owns(s.tasks[next], Cell(s.tasks[next])) && Owns(s.tasks[s.current], Cell(s.tasks[s.current]));
  }

  /** What a switch does, by way of the memory before `unlock`: the frame saved at the running code's stack
      pointer, the frame popped at the next task's pointer, and the bytes below that, which `unlock` uses. */
  lemma SwitchFacts(s: System, next: nat, back: Word, room: nat, s': System) returns (saved: Memory)
    requires Valid(s) && AllLocated(s, room) && Next(s, Switch(next, back, room), s')
    ensures FrameAt(saved, s.cpu.rsp - 56, Given(s, back)) && FrameAt(saved, Pointer(s, next), ResumedAs(s'))
    ensures Load(saved, Cell(s.tasks[s.current])) == s.cpu.rsp - 56
    ensures forall a | !(s.cpu.rsp - 56 <= a < s.cpu.rsp) && a != Cell(s.tasks[s.current]) ::
              Load(saved, a) == Load(s.cpu.mem, a)
    ensures forall a | !(Pointer(s, next) - room <= a < Pointer(s, next)) :: Load(s'.cpu.mem, a) == Load(saved, a)
    ensures s'.cpu.rsp == Pointer(s, next) + 56 && s'.cpu.interrupts
  {
    hide Load, Get, Saved, ContextOf, StackOf, Separate;
    var c :| Called(s, c, next, back) && SwitchEffect(c, s'.cpu, room);
    CalledSaves(s, c, next, back);
    NextPointer(s, c, next, back);
    saved := Saved(c);
    assert ContextOf(s'.cpu.regs, s'.cpu.rsp, s'.cpu.rip).rsp == s'.cpu.rsp by { ContextPointer(s'); }
  }

  lemma ContextPointer(s: System)
    ensures ResumedAs(s).rsp == s.cpu.rsp
  {
  }

  /** A word of a task that the running code touches neither before nor after a step stays as it is. */
  lemma Untouched(s: System, e: Event, s': System, room: nat, t: nat, a: int)
    requires Valid(s) && AllLocated(s, room) && Next(s, e, s') && (e.Switch? ==> e.room == room)
    requires t < |s.tasks| && Owns(s.tasks[t], a) && !Touches(s, a) && !Touches(s', a)
    ensures Load(s'.cpu.mem, a) == Load(s.cpu.mem, a)
  {
    hide Load, Get, FrameAt, CloneStackAt, SwitchEffect, Called, Separate;
    NextKeepsValid(s, e, s');
    if e.Switch? {
      var saved := SwitchFacts(s, e.next, e.back, room, s');
      if s.cpu.rsp - 56 <= a < s.cpu.rsp {
        StackIsTouched(s, a);
      }
      if Pointer(s, e.next) - room <= a < Pointer(s, e.next) {
        assert Located(s, e.next, room);
        SameStack(s, s', e.next, a);
        StackIsTouched(s', a);
      }
    }
  }

  /** A task that is not running keeps its saved pointer, and if it is not the boot code its own stack. */
  lemma StepKeepsOut(s: System, e: Event, s': System, room: nat, t: nat)
    requires Valid(s) && AllLocated(s, room) && Next(s, e, s') && (e.Switch? ==> e.room == room && e.next != t)
    requires t < |s.tasks| && t != s.current
    ensures t < |s'.tasks| == |s'.on| && t != s'.current && s'.tasks[t] == s.tasks[t] && s'.on[t] == s.on[t]
    ensures Pointer(s', t) == Pointer(s, t)
    ensures t != 0 ==> forall a | a in s.tasks[t].area :: Load(s'.cpu.mem, a) == Load(s.cpu.mem, a)
  {
    hide Load, FrameAt, CloneStackAt, SwitchEffect, Called, Touches, TrapEffect, Separate, Kept;
    NextKeepsValid(s, e, s');
    assert s'.current == s.current || (e.Switch? && s'.current == e.next);
    forall a | a == Cell(s.tasks[t]) || (t != 0 && a in s.tasks[t].area)
      ensures Load(s'.cpu.mem, a) == Load(s.cpu.mem, a)
    {
      OwnIsUntouched(s, t, a);
      OwnIsUntouched(s', t, a);
      Untouched(s, e, s', room, t, a);
    }
  }

  /** Created stacks have room for the first switch into them. */
  ghost predicate Roomy(e: Event, room: nat) {
    match e
    case Create(task, top, _) => OnStack(task, top - 56 - room, top)
    case Clone(task, top, _, _, _) => OnStack(task, top - 232 - room, top)
    case _ => true
  }

  lemma StepLocates(s: System, e: Event, s': System, room: nat)
    requires Valid(s) && AllLocated(s, room) && Next(s, e, s') && Roomy(e, room)
    requires e.Switch? ==> e.room == room
    ensures Valid(s') && AllLocated(s', room)
  {
    hide Load, FrameAt, CloneStackAt, SwitchEffect, Called, Touches, TrapEffect, Separate, Kept;
    NextKeepsValid(s, e, s');
    forall t | 0 <= t < |s'.tasks| && t != s'.current ensures Located(s', t, room) {
      if t < |s.tasks| && t != s.current {
        StepKeepsOut(s, e, s', room, t);
        LocatedKept(s, s', t, room);
      } else if t < |s.tasks| {
        SwitchStores(s, e.next, e.back, room, s');
        forall a | Pointer(s', t) - room <= a < Pointer(s', t) + 56 ensures StackOf(s', t, a) {
          SameStack(s, s', t, a);
        }
      }
    }
  }

  lemma LocatedKept(s: System, s': System, t: nat, room: nat)
    requires t < |s.tasks| == |s.on| && t < |s'.tasks| == |s'.on| && Located(s, t, room)
    requires s'.tasks[t] == s.tasks[t] && s'.on[t] == s.on[t] && s'.boot == s.boot && s'.rsp0 == s.rsp0
    requires Pointer(s', t) == Pointer(s, t)
    ensures Located(s', t, room)
  {
    hide Load;
    forall a | Pointer(s', t) - room <= a < Pointer(s', t) + 56 ensures StackOf(s', t, a) {
      SameStack(s, s', t, a);
    }
  }

  /** A switch leaves the running code's stack pointer in the current task's cell. */
  lemma SwitchStores(s: System, next: nat, back: Word, room: nat, s': System)
    requires Valid(s) && AllLocated(s, room) && Next(s, Switch(next, back, room), s')
    ensures s.current < |s'.tasks| && Pointer(s', s.current) == s.cpu.rsp - 56
  {
    hide Load, FrameAt, SwitchEffect, Called, StackOf, Separate;
    var saved := SwitchFacts(s, next, back, room, s');
    var cell := Cell(s.tasks[s.current]);
    if Pointer(s, next) - room <= cell < Pointer(s, next) {
      assert Located(s, next, room);
      StackIsNoCell(s, next, s.current, cell);
    }
  }

  /** The frame that a switch saves is there afterwards if the next task's code does not reach it. */
  lemma SwitchSaves(s: System, next: nat, back: Word, room: nat, s': System)
    requires Valid(s) && AllLocated(s, room) && Next(s, Switch(next, back, room), s')
    requires Clear(s', s.cpu.rsp - 56)
    ensures FrameAt(s'.cpu.mem, s.cpu.rsp - 56, Given(s, back))
  {
    hide Load, FrameAt, SwitchEffect, Called, StackOf, Separate;
    NextKeepsValid(s, Switch(next, back, room), s');
    var saved := SwitchFacts(s, next, back, room, s');
    forall a | s.cpu.rsp - 56 <= a < s.cpu.rsp ensures Load(s'.cpu.mem, a) == Load(saved, a) {
      if Pointer(s, next) - room <= a < Pointer(s, next) {
        assert Located(s, next, room);
        SameStack(s, s', next, a);
        StackIsTouched(s', a);
      }
    }
    FrameKept(saved, s'.cpu.mem, s.cpu.rsp - 56, Given(s, back));
  }

  lemma SameStack(s: System, s': System, t: nat, a: int)
    requires t < |s.tasks| == |s.on| && t < |s'.tasks| == |s'.on| && s'.boot == s.boot && s'.rsp0 == s.rsp0
    requires s'.tasks[t] == s.tasks[t] && s'.on[t] == s.on[t]
    ensures StackOf(s', t, a) <==> StackOf(s, t, a)
  {
  }

  /** Switching to a task whose frame is intact, and which the running code does not reach, gives the task
      that context. */
  lemma SwitchResumes(s: System, next: nat, back: Word, room: nat, k: Context, s': System)
    requires Valid(s) && AllLocated(s, room) && Next(s, Switch(next, back, room), s')
    requires FrameAt(s.cpu.mem, Pointer(s, next), k) && Clear(s, Pointer(s, next))
    ensures ResumedAs(s') == k && !s'.cpu.lock && s'.cpu.interrupts
  {
    hide Load, FrameAt, SwitchEffect, Called, StackOf, Separate, ContextOf;
    var saved := SwitchFacts(s, next, back, room, s');
    var sp := Pointer(s, next);
    forall a | sp <= a < sp + 56 ensures Load(saved, a) == Load(s.cpu.mem, a) {
      if s.cpu.rsp - 56 <= a < s.cpu.rsp {
        StackIsTouched(s, a);
      }
      assert Located(s, next, room);
      StackIsNoCell(s, next, s.current, a);
    }
    FrameKept(s.cpu.mem, saved, sp, k);
    FrameUnique(saved, sp, k, ResumedAs(s'));
  }

  /** Switching to a task whose frame lies where the running code is just saving its own gives that task the
      running code's context. */
  lemma SwitchConfuses(s: System, next: nat, back: Word, room: nat, s': System)
    requires Valid(s) && AllLocated(s, room) && Next(s, Switch(next, back, room), s')
    requires Pointer(s, next) == s.cpu.rsp - 56
    ensures ResumedAs(s') == Given(s, back)
  {
    hide Load, FrameAt, SwitchEffect, Called, StackOf, Separate, ContextOf;
    var saved := SwitchFacts(s, next, back, room, s');
    FrameUnique(saved, s.cpu.rsp - 56, Given(s, back), ResumedAs(s'));
  }

  // ----- Runs -----

  /** A run from boot: a state per point, an event between each two, and room for every switch into a task. */
  ghost predicate Run(states: seq<System>, events: seq<Event>, room: nat) {
    && |states| == |events| + 1
    && Booting(states[0])
    && (forall i | 0 <= i < |events| :: Next(states[i], events[i], states[i + 1]))
    && (forall i | 0 <= i < |events| && events[i].Switch? :: events[i].room == room)
    && (forall i | 0 <= i < |events| :: Roomy(events[i], room))
  }

  /** In every run each task but the running one has a saved pointer to a frame's place on its stack. */
  lemma {:induction false} RunLocates(states: seq<System>, events: seq<Event>, room: nat, i: nat)
    requires Run(states, events, room) && i < |states|
    ensures Valid(states[i]) && AllLocated(states[i], room)
  {
    hide Next, Roomy, Separate;
    if i > 0 {
      RunLocates(states, events, room, i - 1);
      assert Next(states[i - 1], events[i - 1], states[i - 1 + 1]) && Roomy(events[i - 1], room);
      StepLocates(states[i - 1], events[i - 1], states[i], room);
    } else {
      BootingIsValid(states[0], room);
    }
  }

  lemma BootingIsValid(s: System, room: nat)
    requires Booting(s)
    ensures Valid(s) && AllLocated(s, room)
  {
  }

  /** Nothing in events[i..j] switches to task t. */
  ghost predicate NotResumed(events: seq<Event>, i: nat, j: nat, t: nat) {
    forall m | i <= m < j && m < |events| :: events[m].Switch? ==> events[m].next != t
  }

  /** As long as nothing switches to it, a task keeps its saved pointer, and if it is not the boot code all
      of its stack. */
  lemma {:induction false} StaysOut(states: seq<System>, events: seq<Event>, room: nat, i: nat, j: nat, t: nat)
    requires Run(states, events, room) && i <= j < |states| && NotResumed(events, i, j, t)
    requires t < |states[i].tasks| == |states[i].on| && t != states[i].current
    ensures t < |states[j].tasks| == |states[j].on| && t != states[j].current
    ensures states[j].tasks[t] == states[i].tasks[t] && states[j].on[t] == states[i].on[t]
    ensures Pointer(states[j], t) == Pointer(states[i], t)
    ensures t != 0 ==> forall a | a in states[i].tasks[t].area ::
                         Load(states[j].cpu.mem, a) == Load(states[i].cpu.mem, a)
    decreases j - i
  {
    hide Next, Roomy, Load, Valid, AllLocated, Booting;
    if i < j {
      StaysOut(states, events, room, i, j - 1, t);
      RunLocates(states, events, room, j - 1);
      assert Next(states[j - 1], events[j - 1], states[j - 1 + 1]);
      StepKeepsOut(states[j - 1], events[j - 1], states[j], room, t);
    }
  }

  /** A word of some task that is touched at no point of states[i..j+1] stays as it is. */
  lemma {:induction false} WordStays(states: seq<System>, events: seq<Event>, room: nat, i: nat, j: nat, t: nat, a: int)
    requires Run(states, events, room) && i <= j < |states|
    requires t < |states[i].tasks| && Owns(states[i].tasks[t], a)
    requires forall n | i <= n <= j :: !Touches(states[n], a)
    ensures Load(states[j].cpu.mem, a) == Load(states[i].cpu.mem, a)
    ensures t < |states[j].tasks| && states[j].tasks[t] == states[i].tasks[t]
    decreases j - i
  {
    hide Next, Roomy, Load, Valid, AllLocated, Booting, Touches, Owns;
    if i < j {
      WordStays(states, events, room, i, j - 1, t, a);
      RunLocates(states, events, room, j - 1);
      assert Next(states[j - 1], events[j - 1], states[j - 1 + 1]);
      NextKeepsValid(states[j - 1], events[j - 1], states[j]);
      Untouched(states[j - 1], events[j - 1], states[j], room, t, a);
    }
  }

  /** After i and up to j the running code does not reach the frame at sp. */
  ghost predicate ClearUntil(states: seq<System>, i: nat, j: nat, sp: int) {
    forall n | i < n <= j && n < |states| :: Clear(states[n], sp)
  }

  /** A frame that is not reached stays. */
  lemma FrameStays(states: seq<System>, events: seq<Event>, room: nat, i: nat, j: nat, t: nat, k: Context)
    requires Run(states, events, room) && i < j < |states|
    requires t < |states[i + 1].tasks| == |states[i + 1].on| && t != states[i + 1].current
    requires ClearUntil(states, i, j, Pointer(states[i + 1], t))
    requires FrameAt(states[i + 1].cpu.mem, Pointer(states[i + 1], t), k)
    ensures FrameAt(states[j].cpu.mem, Pointer(states[i + 1], t), k)
  {
    hide Run, Load, FrameAt, Touches, StackOf, Owns;
    var sp := Pointer(states[i + 1], t);
    RunLocates(states, events, room, i + 1);
    forall a | sp <= a < sp + 56 ensures Load(states[j].cpu.mem, a) == Load(states[i + 1].cpu.mem, a) {
      assert Located(states[i + 1], t, room);
      StackIsNoCell(states[i + 1], t, t, a);
      forall n | i + 1 <= n <= j ensures !Touches(states[n], a) {
        assert Clear(states[n], sp);
      }
      WordStays(states, events, room, i + 1, j, if states[i + 1].on[t] == Own then t else 0, a);
    }
    FrameKept(states[i + 1].cpu.mem, states[j].cpu.mem, sp, k);
  }
}
