/** The routines of task.c over one processor, with the history of what they did: every history is a run.  Two
    concrete histories show the boot code going on as the first task, and a parent going on as its clone. */
module KernelTasks {
  import opened ContextSwitch
  import opened ContextSwitchRuns
  import opened ContextResumes

  /** The task after the current one, round the ring. */
  function RoundRobin(current: nat, n: nat): nat { if current + 1 < n then current + 1 else 0 }

  /** A new task as it enters the list: the first one has the stack that the boot code runs on. */
  ghost function Entered(s: System, task: Task): Task {
    if s.tasks == [] then Task(task.address, s.boot) else task
  }

  /** The caller's part of a creation: fresh memory with a stack of `size` bytes and room below them. */
  ghost predicate MayCreate(s: System, task: Task, top: int, size: nat, room: nat) {
    && Separate(s.tasks + [Entered(s, task)])
    && OnStack(task, top - size - room, top) && Cell(task) !in task.area
    && (s.tasks == [] ==> forall a | top - size <= a < top :: a !in s.boot)
  }

  /** These words belong to no task, nor to the one about to be added. */
  ghost predicate Unowned(s: System, task: Task, lo: int, hi: int) {
    && (forall a | lo <= a < hi :: !Owns(task, a))
    && (forall t, a | 0 <= t < |s.tasks| && lo <= a < hi :: !Owns(s.tasks[t], a))
  }

  /** Building a stack, storing its pointer and filling memory of nobody's touches no word of the other tasks. */
  lemma BuiltApart(s: System, task: Task, top: int, size: nat, room: nat, lo: int, hi: int, s': System)
    requires MayCreate(s, task, top, size, room) && s.tasks != [] && Unowned(s, task, lo, hi)
    requires forall a | !(top - size <= a < top) && a != Cell(task) && !(lo <= a < hi) ::
               Load(s'.cpu.mem, a) == Load(s.cpu.mem, a)
    requires s'.tasks == s.tasks + [task] && s'.on == s.on + [Own] && s'.current == s.current
    ensures Adds(s, task, s')
  {
    hide Load;
    var tasks := s'.tasks;
    forall t, a | 0 <= t < |s.tasks| && Owns(s.tasks[t], a) && !Touches(s, a)
      ensures Load(s'.cpu.mem, a) == Load(s.cpu.mem, a)
    {
      assert tasks[t] == s.tasks[t] && tasks[|s.tasks|] == task;
      assert Owns(task, a) ==> t == |s.tasks|;
    }
  }

  lemma CloneStackKept(mem: Memory, mem': Memory, top: int, entry: Word, userStack: Word, resumeUser: Word)
    requires CloneStackAt(mem, top, entry, userStack, resumeUser)
    requires forall a | top - 232 <= a < top :: Load(mem', a) == Load(mem, a)
    ensures CloneStackAt(mem', top, entry, userStack, resumeUser)
  {
    hide Load;
    ZerosKept(mem, mem', top - 176, 17);
  }

  /** The bytes of the user stack that a clone gets a copy of. */
  const COPIED := 2048

  /** What is built afterwards leaves the copy as it is. */
  lemma CopyStays(s: System, task: Task, top: int, room: nat, mem: Memory, mem': Memory, lo: int)
    requires MayCreate(s, task, top, 232, room) && Unowned(s, task, lo, lo + COPIED)
    requires forall a | !(top - 232 <= a < top) && a != Cell(task) :: Load(mem', a) == Load(mem, a)
    ensures forall k | 0 <= k < COPIED / 8 :: WordAt(mem', lo, k) == WordAt(mem, lo, k)
  {
    hide Load, Separate;
    forall k | 0 <= k < COPIED / 8 ensures WordAt(mem', lo, k) == WordAt(mem, lo, k) {
      assert !Owns(task, lo + 8 * k);
    }
  }

  lemma RunExtends(states: seq<System>, events: seq<Event>, room: nat, e: Event, s: System)
    requires Run(states, events, room) && Next(states[|events|], e, s) && Roomy(e, room)
    requires e.Switch? ==> e.room == room
    ensures Run(states + [s], events + [e], room)
  {
    hide Next, Roomy, Booting;
    var states', events' := states + [s], events + [e];
    forall i | 0 <= i < |events'| ensures Next(states'[i], events'[i], states'[i + 1]) && Roomy(events'[i], room) {
      if i < |events| {
        assert Next(states[i], events[i], states[i + 1]);
      }
    }
  }

  class Kernel {
    const cpu: Processor
    const rsp0: int
    var addresses: seq<int>
    var current: nat
    ghost var tasks: seq<Task>
    ghost var on: seq<Stack>
    ghost var states: seq<System>
    ghost var events: seq<Event>
    ghost const boot: iset<int>
    ghost const room: nat

    ghost function View(): System
      reads this, cpu
    {
      System(cpu.View(), tasks, current, boot, rsp0, cpu.InUser(), on)
    }

    /** The history so far is a run that ends here. */
    ghost predicate Ready()
      reads this, cpu
    {
      && Run(states, events, room) && states[|events|] == View() && Valid(View())
      && |addresses| == |tasks| && forall t | 0 <= t < |tasks| :: addresses[t] == tasks[t].address
    }

    /** From there to here is one more event. */
    twostate predicate Took(e: Event)
      reads this, cpu
    {
      Ready() && states == old(states) + [View()] && events == old(events) + [e]
    }

    lemma ReadyIsRun()
      requires Ready()
      ensures Run(states, events, room) && |states| == |events| + 1 && states[|events|] == View()
    {
      RunLength(states, events, room);
    }

    constructor (cpu: Processor, rsp0: int, ghost boot: iset<int>, ghost room: nat)
      requires !cpu.lock && !cpu.InUser()
      ensures this.cpu == cpu && this.rsp0 == rsp0 && this.boot == boot && this.room == room
      ensures Ready() && Booting(View()) && states == [View()] && events == []
    {
      this.cpu, this.rsp0, this.boot, this.room := cpu, rsp0, boot, room;
      addresses, current, tasks, on, events := [], 0, [], [], [];
      states := [System(cpu.View(), [], 0, boot, rsp0, cpu.InUser(), [])];
    }

    ghost method Record(e: Event)
      requires Run(states, events, room) && Next(states[|events|], e, View()) && Roomy(e, room)
      requires e.Switch? ==> e.room == room
      modifies `states, `events
      ensures Run(states, events, room) && states[|events|] == View() && Valid(View())
      ensures states == old(states) + [View()] && events == old(events) + [e]
    {
      hide Run, Next, Roomy, Valid, AllLocated;
      RunLength(states, events, room);
      RunExtends(states, events, room, e, View());
      states, events := states + [View()], events + [e];
      RunLocates(states, events, room, |events|);
    }

    /** KernelSwitchProcess, called from `back`; `clobber` and `scratch` are what `unlock` leaves behind. */
    method SwitchProcess(back: Word, clobber: map<Reg, Word>, scratch: Memory)
      requires Ready() && !cpu.InUser() && forall r | r in clobber :: CallerSaved(r)
      requires |tasks| > 1 ==> forall a | cpu.rsp - 56 - room <= a < cpu.rsp :: StackOf(View(), current, a)
      requires |tasks| > 1 ==> forall a | a in scratch ::
                 var sp := Load(cpu.mem, Cell(tasks[RoundRobin(current, |tasks|)])); sp - room <= a < sp
      modifies `current, `states, `events, cpu
      ensures |tasks| > 1 ==> Took(Switch(RoundRobin(old(current), |tasks|), back, room))
      ensures |tasks| > 1 ==> current == RoundRobin(old(current), |tasks|)
      ensures !cpu.InUser()
      ensures |tasks| <= 1 ==> Ready() && View() == old(View()) && events == old(events) && states == old(states)
    {
      hide Load, Get, Saved, FrameAt, ContextOf, AllLocated, Separate, Run, StackOf;
      if |addresses| <= 1 {
        return;
      }
      ghost var s := View();
      RunLength(states, events, room);
      RunLocates(states, events, room, |events|);
      var next := RoundRobin(current, |addresses|);
      cpu.lock, cpu.interrupts := true, false;
      cpu.SetArguments(addresses[next], addresses[current]);
      cpu.Push(back);
      ghost var c := cpu.View();
      assert Called(s, c, next, back);
      NextPointer(s, c, next, back);
      cpu.SwitchTask(clobber, scratch, room);
      current := next;
      assert SwitchEffect(c, cpu.View(), room);
      Record(Switch(next, back, room));
    }

    /** KernelInitializeProcess: the stack below `top`, the saved stack pointer, and the list. */
    method InitializeProcess(task: Task, top: int, entry: Word)
      requires Ready() && !cpu.InUser() && MayCreate(View(), task, top, 56, room)
      modifies `addresses, `tasks, `on, `states, `events, cpu`mem
      ensures Took(Create(task, top, entry))
      ensures tasks == old(tasks) + [Entered(old(View()), task)] && on == old(on) + [Own]
      ensures forall a | !(top - 56 <= a < top) && a != Cell(task) :: Load(cpu.mem, a) == Load(old(cpu.mem), a)
    {
      hide Load, Get, ContextOf, Separate, Run, FrameAt, Owns;
      ghost var s := View();
      RunLength(states, events, room);
      var sp := cpu.BuildKernelStack(top, entry);
      ghost var built := cpu.mem;
      cpu.Store(Cell(task), sp);
      FrameKept(built, cpu.mem, sp, Context(0, 0, 0, 0, 0, 0, top, entry));
      addresses := addresses + [task.address];
      tasks := tasks + [Entered(s, task)];
      on := on + [Own];
      if s.tasks != [] {
        BuiltApart(s, task, top, 56, room, 0, 0, View());
      }
      Record(Create(task, top, entry));
    }

    /** KernelCloneProcess: the copy of the user stack, then as above; its list is never empty. */
    method CloneProcess(task: Task, top: int, entry: Word, ursp: int, userStack: int, resumeUser: Word)
      requires Ready() && !cpu.InUser() && tasks != [] && MayCreate(View(), task, top, 232, room)
      requires Unowned(View(), task, userStack, userStack + COPIED)
      requires userStack + COPIED <= ursp || ursp + COPIED <= userStack
      modifies `addresses, `tasks, `on, `states, `events, cpu`mem
      ensures Took(Clone(task, top, entry, userStack, resumeUser))
      ensures tasks == old(tasks) + [task] && on == old(on) + [Own]
      ensures forall k | 0 <= k < 256 :: WordAt(cpu.mem, userStack, k) == WordAt(old(cpu.mem), ursp, k)
      ensures forall a | !(top - 232 <= a < top) && a != Cell(task) && !(userStack <= a < userStack + COPIED) ::
                Load(cpu.mem, a) == Load(old(cpu.mem), a)
    {
      hide Load, Get, ContextOf, Separate, Run, FrameAt, Owns, CloneStackAt;
      ghost var s := View();
      RunLength(states, events, room);
      cpu.CopyWords(userStack, ursp, COPIED / 8);
      ghost var copied := cpu.mem;
      var sp := cpu.BuildCloneStack(top, entry, userStack, resumeUser);
      ghost var built := cpu.mem;
      cpu.Store(Cell(task), sp);
      CloneStackKept(built, cpu.mem, top, entry, userStack, resumeUser);
      addresses := addresses + [task.address];
      tasks := tasks + [task];
      on := on + [Own];
      CopyStays(s, task, top, room, copied, cpu.mem, userStack);
      BuiltApart(s, task, top, 232, room, userStack, userStack + COPIED, View());
      Record(Clone(task, top, entry, userStack, resumeUser));
    }

    /** An interrupt while a task is in user mode. */
    method EnterFromUser(number: Word, handler: Word)
      requires Ready() && cpu.InUser() && forall a | rsp0 - TRAP_SIZE <= a < rsp0 :: a in boot
      modifies `on, `states, `events, cpu`regs, cpu`rsp, cpu`mem, cpu`rip, cpu`cs, cpu`ss, cpu`interrupts, cpu`userGs
      ensures Took(Enter(Trap(number, old(cpu.rip), old(cpu.cs), cpu.flags, old(cpu.rsp), old(cpu.ss))))
      ensures TrapEffect(old(cpu.View()), cpu.View(),
                         Trap(number, old(cpu.rip), old(cpu.cs), cpu.flags, old(cpu.rsp), old(cpu.ss)), rsp0)
      ensures !cpu.InUser() && current < |old(on)| && on == old(on)[current := Entry]
      ensures cpu.userGs == !old(cpu.userGs)
    {
      hide Load, Get, Run, TrapEffect, Separate;
      RunLength(states, events, room);
      ghost var trap := Trap(number, cpu.rip, cpu.cs, cpu.flags, cpu.rsp, cpu.ss);
      ghost var c := cpu.View();
      cpu.EnterKernel(rsp0, number, handler);
      on := on[current := Entry];
      assert TrapEffect(c, cpu.View(), trap, rsp0);
      Record(Enter(trap));
    }

    /** A system call of a program. */
    method EnterSystemCall(handler: Word)
      requires Ready() && cpu.InUser() && forall a | rsp0 - TRAP_SIZE <= a < rsp0 :: a in boot
      modifies `on, `states, `events, cpu`regs, cpu`rsp, cpu`mem, cpu`rip, cpu`cs, cpu`ss, cpu`interrupts, cpu`userGs
      ensures Took(Enter(Trap(0, old(cpu.rip), old(cpu.cs), cpu.flags, old(cpu.rsp), old(cpu.ss))))
      ensures TrapEffect(old(cpu.View()), cpu.View(),
                         Trap(0, old(cpu.rip), old(cpu.cs), cpu.flags, old(cpu.rsp), old(cpu.ss)), rsp0)
      ensures !cpu.InUser() && current < |old(on)| && on == old(on)[current := Entry]
      ensures cpu.userGs == !old(cpu.userGs)
    {
      hide Load, Get, Run, TrapEffect, Separate;
      RunLength(states, events, room);
      ghost var trap := Trap(0, cpu.rip, cpu.cs, cpu.flags, cpu.rsp, cpu.ss);
      ghost var c := cpu.View();
      cpu.EnterSystemCall(rsp0, handler);
      on := on[current := Entry];
      assert TrapEffect(c, cpu.View(), trap, rsp0);
      Record(Enter(trap));
    }

    /** The way back to user mode through the words of a trap at the stack pointer. */
    method ReturnToUser()
      requires Ready() && !cpu.InUser() && tasks != [] && Load(cpu.mem, cpu.rsp + 144) % 4 == 3
      modifies `states, `events, cpu`rsp, cpu`regs, cpu`rip, cpu`cs, cpu`ss, cpu`flags, cpu`userGs
      ensures Took(Leave) && cpu.InUser() && UserEffect(old(cpu.View()), cpu.View())
      ensures cpu.cs == Load(cpu.mem, old(cpu.rsp) + 144) && cpu.flags == Load(cpu.mem, old(cpu.rsp) + 152)
      ensures cpu.ss == Load(cpu.mem, old(cpu.rsp) + 168) && cpu.userGs == !old(cpu.userGs)
    {
      hide Load, Get, Run, PoppedLower, PoppedUpper, Separate;
      RunLength(states, events, room);
      cpu.LeaveKernel();
      Record(Leave);
    }

    /** The same by `resume_user`, where a clone starts; a system call ends with the same instructions. */
    method ResumeUser()
      requires Ready() && !cpu.InUser() && tasks != [] && Load(cpu.mem, cpu.rsp + 144) % 4 == 3
      modifies `states, `events, cpu`rsp, cpu`regs, cpu`rip, cpu`cs, cpu`ss, cpu`flags, cpu`userGs
      ensures Took(Leave) && cpu.InUser() && UserEffect(old(cpu.View()), cpu.View())
      ensures cpu.cs == Load(cpu.mem, old(cpu.rsp) + 144) && cpu.flags == Load(cpu.mem, old(cpu.rsp) + 152)
      ensures cpu.ss == Load(cpu.mem, old(cpu.rsp) + 168) && cpu.userGs == !old(cpu.userGs)
    {
      hide Load, Get, Run, PoppedLower, PoppedUpper, Separate;
      RunLength(states, events, room);
      cpu.ResumeUser();
      Record(Leave);
    }

    /** The boot code starts a program on the stack it runs on. */
    method StartProgram(entry: Word)
      requires Ready() && !cpu.InUser() && tasks != []
      requires forall a | cpu.rsp - 40 <= a < cpu.rsp :: StackOf(View(), current, a)
      modifies `states, `events, cpu`rsp, cpu`regs, cpu`mem, cpu`rip, cpu`cs, cpu`ss, cpu`flags
      ensures Took(Leave) && cpu.InUser() && cpu.rip == entry && cpu.rsp == old(cpu.rsp)
    {
      hide Load, Get, Run, Separate;
      RunLength(states, events, room);
      ghost var s := View();
      forall a | cpu.rsp - 40 <= a < cpu.rsp ensures Touches(s, a) {
        StackIsTouched(s, a);
      }
      cpu.SwitchToUser(entry);
      Record(Leave);
    }

    /** A program in user mode leaves these values in its registers. */
    method RunUser(regs: map<Reg, Word>)
      requires Ready() && cpu.InUser()
      modifies `states, `events, cpu`regs
      ensures Took(Work) && cpu.regs == regs
    {
      hide Load, Get, Run, Separate;
      RunLength(states, events, room);
      cpu.regs := regs;
      Record(Work);
    }
  }
}
