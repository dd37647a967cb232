/** Two histories of the kernel: the boot code goes on as the first task, on its own stack; and a parent goes on
    in user mode as its clone, because both entered the kernel at the same address. */
module TaskHistories {
  import opened ContextSwitch
  import opened ContextSwitchRuns
  import opened ContextResumes
  import opened KernelTasks

  const BOOT_TOP := 0x2000
  const RSP0 := 0x1F00
  const USER_STACK := 0x9000

  ghost predicate Span(area: iset<int>, lo: int, hi: int) { forall a :: a in area <==> lo <= a < hi }

  ghost predicate Witnesses(first: Task, second: Task, boot: iset<int>) {
    && Span(boot, 0x1000, BOOT_TOP)
    && first.address == 0x3000 && Span(first.area, 0x4000, 0x5000)
    && second.address == 0x3100 && Span(second.area, 0x6000, 0x7000)
  }

  ghost predicate Boots(cpu: Cpu, user: bool) { !cpu.lock && cpu.rsp == BOOT_TOP && !user }

  lemma WitnessesFit(s: System, first: Task, second: Task)
    requires Witnesses(first, second, s.boot)
    ensures s.tasks == [] ==> MayCreate(s, first, 0x5000, 56, 0)
    ensures s.tasks == [Task(first.address, s.boot)] ==> MayCreate(s, second, 0x7000, 56, 0)
    ensures s.tasks == [Task(first.address, s.boot)] ==> MayCreate(s, second, 0x7000, 232, 0)
    ensures s.tasks == [Task(first.address, s.boot)] ==> Unowned(s, second, USER_STACK, USER_STACK + COPIED)
    ensures forall a | 0x1000 <= a < BOOT_TOP :: a in s.boot
    ensures OnStack(second, 0x7000 - 56, 0x7000) && Cell(second) == 0x3108
  {
    assert 0x1FFF in s.boot;
    if s.tasks == [Task(first.address, s.boot)] {
      forall a | USER_STACK <= a < USER_STACK + COPIED ensures !Owns(second, a) && !Owns(s.tasks[0], a) {
      }
    }
  }

  /** The current task has room for a switch on the stack it is on. */
  lemma SwitchFits(s: System, first: Task, second: Task)
    requires Witnesses(first, second, s.boot) && s.rsp0 == RSP0 && |s.on| == 2 && s.current < 2
    requires s.tasks == [Task(first.address, s.boot), second]
    requires s.cpu.rsp == (if s.on[s.current] == Entry then RSP0 - TRAP_SIZE
                           else if s.current == 0 then BOOT_TOP else 0x7000)
    ensures forall a | s.cpu.rsp - 56 <= a < s.cpu.rsp :: StackOf(s, s.current, a)
  {
  }

  /** Two creations and two switches, and the boot code goes on with the context it gave up. */
  ghost predicate BootResumed(states: seq<System>, events: seq<Event>, first: Task) {
    && |events| == 4 && |states| == 5
    && events[0] == Create(first, 0x5000, 0) && events[2].Switch? && events[3].Switch? && events[3].next == 0
    && ResumedAs(states[4]) == Given(states[2], events[2].back) && ResumedAs(states[4]).rsp == BOOT_TOP
  }

  /** One task, on the boot stack: the state after the first creation. */
  ghost predicate OneTask(s: System, first: Task) {
    && s.tasks == [Task(first.address, s.boot)] && s.on == [Own] && s.current == 0 && s.rsp0 == RSP0
    && s.cpu.rsp == BOOT_TOP && !s.user
  }

  method BootWithTask(cpu: Processor, ghost boot: iset<int>, first: Task, second: Task) returns (kernel: Kernel)
    requires Boots(cpu.View(), cpu.InUser()) && Witnesses(first, second, boot)
    modifies cpu
    ensures fresh(kernel) && kernel.cpu == cpu && kernel.boot == boot && kernel.room == 0 && kernel.rsp0 == RSP0
    ensures kernel.Ready() && kernel.events == [Create(first, 0x5000, 0)] && OneTask(kernel.View(), first)
  {
    hide Load, Get, MayCreate, Witnesses, Separate, Roomy, Next, AllLocated, Run, FrameAt, Valid, StackOf, Unowned;
    kernel := new Kernel(cpu, RSP0, boot, 0);
    WitnessesFit(kernel.View(), first, second);
    kernel.InitializeProcess(first, 0x5000, 0);
  }

  /** The boot code creates a task with entry point 0, then another, and is switched away and back: it goes on
      on its own stack, and not at the frame built for the first task. */
  method FirstTaskResumed(cpu: Processor, ghost boot: iset<int>, first: Task, second: Task, entry: Word)
      returns (kernel: Kernel)
    requires Boots(cpu.View(), cpu.InUser()) && Witnesses(first, second, boot)
    modifies cpu
    ensures kernel.Ready() && BootResumed(kernel.states, kernel.events, first)
  {
    hide Load, Get, MayCreate, OnStack, Witnesses, Separate, Roomy, Next, AllLocated, Run, FrameAt, Valid, StackOf,
         Unowned, Kernel.Ready;
    kernel := BootWithTask(cpu, boot, first, second);
    kernel.ReadyIsRun();
    WitnessesFit(kernel.View(), first, second);
    kernel.InitializeProcess(second, 0x7000, entry);
    SwitchFits(kernel.View(), first, second);
    kernel.SwitchProcess(0, map[], map[]);
    kernel.ReadyIsRun();
    FirstRunStartsAtEntry(kernel.states, kernel.events, 0, 1, 2);
    ContextPointer(kernel.View());
    SwitchFits(kernel.View(), first, second);
    kernel.SwitchProcess(0, map[], map[]);
    kernel.ReadyIsRun();
    ResumeFindsContext(kernel.states, kernel.events, 0, 2, 3);
  }

  // ----- A parent and its clone -----

  /** The two tasks, each on the stack it was last interrupted on. */
  ghost predicate TwoTasks(s: System, first: Task, second: Task, current: nat, on: seq<Stack>, user: bool) {
    && s.tasks == [Task(first.address, s.boot), second] && s.on == on && s.current == current && s.rsp0 == RSP0
    && s.user == user && Witnesses(first, second, s.boot)
  }

  ghost predicate Cloned(states: seq<System>, events: seq<Event>, task: Task, entry: Word, resumeUser: Word) {
    && |events| >= 5 && |states| == |events| + 1 && |states[3].tasks| == 1
    && events[3] == Clone(task, 0x7000, entry, USER_STACK, resumeUser)
    && (forall i | 0 <= i < 5 :: !events[i].Switch?)
  }

  /** The boot code starts a program, which makes a system call. */
  method ProgramCalls(kernel: Kernel, first: Task, second: Task, program: Word) returns (ghost trap: Trap)
    requires kernel.Ready() && kernel.room == 0 && |kernel.events| == 1 && !kernel.events[0].Switch?
    requires OneTask(kernel.View(), first) && Witnesses(first, second, kernel.boot)
    modifies kernel, kernel.cpu
    ensures kernel.Ready() && |kernel.events| == 3 && forall e | e in kernel.events :: !e.Switch?
    ensures kernel.View().tasks == [Task(first.address, kernel.boot)] && kernel.on == [Entry]
    ensures kernel.current == 0 && !kernel.cpu.InUser() && kernel.cpu.rsp == RSP0 - TRAP_SIZE
    ensures TrapAt(kernel.cpu.mem, kernel.cpu.rsp, trap) && trap.rip == program && trap.cs % 4 == 3
  {
    hide Load, Get, MayCreate, OnStack, Separate, Next, Run, Valid, Unowned, Kernel.Ready, PoppedLower, PoppedUpper,
         TrapAt, Witnesses;
    kernel.ReadyIsRun();
    WitnessesFit(kernel.View(), first, second);
    kernel.StartProgram(program);
    trap := Trap(0, program, kernel.cpu.cs, kernel.cpu.flags, kernel.cpu.rsp, kernel.cpu.ss);
    kernel.EnterSystemCall(0);
  }

  /** The program clones itself and goes on. */
  method ParentClones(kernel: Kernel, first: Task, second: Task, program: Word, entry: Word, resumeUser: Word)
    requires kernel.Ready() && kernel.room == 0 && |kernel.events| == 1 && !kernel.events[0].Switch?
    requires OneTask(kernel.View(), first) && Witnesses(first, second, kernel.boot)
    modifies kernel, kernel.cpu
    ensures kernel.Ready() && |kernel.events| == 5
    ensures Cloned(kernel.states, kernel.events, second, entry, resumeUser)
    ensures TwoTasks(kernel.View(), first, second, 0, [Entry, Own], true) && kernel.cpu.rip == program
  {
    hide Load, Get, MayCreate, Separate, Roomy, Next, Run, FrameAt, Valid, Unowned, Kernel.Ready, PoppedLower,
         PoppedUpper, Witnesses;
    ghost var trap := ProgramCalls(kernel, first, second, program);
    kernel.ReadyIsRun();
    WitnessesFit(kernel.View(), first, second);
    kernel.CloneProcess(second, 0x7000, entry, BOOT_TOP, USER_STACK, resumeUser);
    kernel.ResumeUser();
  }

  /** A program runs with these registers until the timer interrupts it. */
  method RunUntilTimer(kernel: Kernel, regs: map<Reg, Word>) returns (ghost trap: Trap)
    requires kernel.Ready() && kernel.cpu.InUser() && kernel.rsp0 == RSP0 && Span(kernel.boot, 0x1000, BOOT_TOP)
    modifies kernel, kernel.cpu
    ensures kernel.Ready() && kernel.events == old(kernel.events) + [Work, Enter(trap)]
    ensures |kernel.states| == |kernel.events| + 1 && kernel.states[|kernel.events|] == kernel.View()
    ensures kernel.states[..|old(kernel.states)|] == old(kernel.states)
    ensures !kernel.cpu.InUser() && kernel.cpu.rsp == RSP0 - TRAP_SIZE && trap.rip == old(kernel.cpu.rip)
    ensures TrapAt(kernel.cpu.mem, kernel.cpu.rsp, trap) && trap.cs % 4 == 3
    ensures Get(kernel.cpu.regs, Rbx) == Get(regs, Rbx)
    ensures kernel.tasks == old(kernel.tasks) && kernel.current == old(kernel.current) < |old(kernel.on)|
    ensures kernel.on == old(kernel.on)[kernel.current := Entry]
  {
    hide Load, Get, Next, Run, Valid, Kernel.Ready, PoppedLower, PoppedUpper, TrapAt;
    kernel.ReadyIsRun();
    trap := Trap(32, kernel.cpu.rip, kernel.cpu.cs, kernel.cpu.flags, kernel.cpu.rsp, kernel.cpu.ss);
    kernel.RunUser(regs);
    kernel.EnterFromUser(32, 0);
  }

  /** The timer interrupts the parent and switches to the clone. */
  method ParentInterrupted(kernel: Kernel, first: Task, second: Task, entry: Word, resumeUser: Word,
                           regs: map<Reg, Word>, back: Word)
    requires kernel.Ready() && kernel.room == 0 && |kernel.events| == 5
    requires Cloned(kernel.states, kernel.events, second, entry, resumeUser)
    requires TwoTasks(kernel.View(), first, second, 0, [Entry, Own], true)
    modifies kernel, kernel.cpu
    ensures kernel.Ready() && |kernel.events| == 8 && kernel.events[7] == Switch(1, back, 0)
    ensures Cloned(kernel.states, kernel.events, second, entry, resumeUser)
    ensures TwoTasks(kernel.View(), first, second, 1, [Entry, Own], false) && kernel.cpu.rip == resumeUser
    ensures CloneWords(kernel.cpu.mem, kernel.cpu.rsp, entry, USER_STACK)
    ensures kernel.states[7].cpu.rsp == RSP0 - TRAP_SIZE && Get(kernel.states[7].cpu.regs, Rbx) == Get(regs, Rbx)
    ensures kernel.states[7].current == 0
  {
    hide Load, Get, MayCreate, OnStack, Separate, Roomy, Next, AllLocated, Run, FrameAt, Valid,
         Unowned, Kernel.Ready, PoppedLower, PoppedUpper, TrapAt, CloneWords, StackOf;
    ghost var trap := RunUntilTimer(kernel, regs);
    SwitchFits(kernel.View(), first, second);
    kernel.SwitchProcess(back, map[], map[]);
    kernel.ReadyIsRun();
    CloneStarts(kernel.states, kernel.events, 0, 3, 7);
  }

  /** A switch without room for `unlock` leaves the words above its frame alone, but for the task's cell. */
  lemma SwitchKeepsTrap(s: System, next: nat, back: Word, s': System, trap: Trap)
    requires Valid(s) && AllLocated(s, 0) && Next(s, Switch(next, back, 0), s')
    requires TrapAt(s.cpu.mem, s.cpu.rsp, trap)
    requires !(s.cpu.rsp <= Cell(s.tasks[s.current]) < s.cpu.rsp + TRAP_SIZE)
    ensures TrapAt(s'.cpu.mem, s.cpu.rsp, trap)
  {
    hide Load, FrameAt, ContextOf, Valid, AllLocated, SwitchEffect, Called, StackOf, Separate;
    var saved := SwitchFacts(s, next, back, 0, s');
  }

  /** The clone runs, is interrupted in its turn, and the parent is switched to. */
  method CloneInterrupted(kernel: Kernel, first: Task, second: Task, entry: Word, resumeUser: Word,
                          regs: map<Reg, Word>, back: Word) returns (ghost trap: Trap)
    requires kernel.Ready() && kernel.room == 0 && |kernel.events| == 8
    requires Cloned(kernel.states, kernel.events, second, entry, resumeUser)
    requires TwoTasks(kernel.View(), first, second, 1, [Entry, Own], false)
    requires CloneWords(kernel.cpu.mem, kernel.cpu.rsp, entry, USER_STACK)
    modifies kernel, kernel.cpu
    ensures kernel.Ready() && |kernel.events| == 12 && kernel.events[..8] == old(kernel.events)
    ensures kernel.states[..9] == old(kernel.states) && kernel.events[11] == Switch(0, back, 0)
    ensures forall i | 8 <= i < 11 :: !kernel.events[i].Switch?
    ensures TwoTasks(kernel.View(), first, second, 0, [Entry, Entry], false)
    ensures kernel.states[11].cpu.rsp == RSP0 - TRAP_SIZE && Get(kernel.states[11].cpu.regs, Rbx) == Get(regs, Rbx)
    ensures TrapAt(kernel.cpu.mem, RSP0 - TRAP_SIZE, trap) && trap.rip == entry && trap.cs % 4 == 3
  {
    hide Load, Get, MayCreate, OnStack, Separate, Roomy, Next, AllLocated, Run, FrameAt, Valid,
         Unowned, Kernel.Ready, PoppedLower, PoppedUpper, TrapAt, StackOf;
    kernel.ReadyIsRun();
    kernel.ResumeUser();
    trap := RunUntilTimer(kernel, regs);
    SwitchFits(kernel.View(), first, second);
    ghost var s := kernel.View();
    kernel.SwitchProcess(back, map[], map[]);
    kernel.ReadyIsRun();
    RunLocates(kernel.states, kernel.events, 0, 11);
    StepOf(kernel.states, kernel.events, 0, 11);
    SwitchKeepsTrap(s, 0, back, kernel.View(), trap);
  }

  /** The first task is switched out at 7 and resumed at 11, not with the context it gave up but with the one its
      clone gave up at 11. */
  ghost predicate Confused(states: seq<System>, events: seq<Event>, back: Word, parent: Word, clone: Word) {
    && |events| >= 12 && |states| == |events| + 1 && events[7] == Switch(1, back, 0) && events[11] == Switch(0, back, 0)
    && states[7].current == 0 && NotResumed(events, 7, 11, 0)
    && ResumedAs(states[12]) == Given(states[11], back) && ResumedAs(states[12]).rbx == clone
    && Given(states[7], back).rbx == parent
  }

  lemma ContextRegister(s: System, back: Word)
    ensures Given(s, back).rbx == Get(s.cpu.regs, Rbx) && Given(s, back).rsp == s.cpu.rsp
  {
  }

  /** A program starts as the first task and clones itself; both are interrupted by the timer in user mode.  The
      parent then goes on in the kernel with the clone's registers, and in user mode at the clone's entry point. */
  method ParentResumesAsClone(cpu: Processor, ghost boot: iset<int>, first: Task, second: Task, program: Word,
                              entry: Word, resumeUser: Word, parentRegs: map<Reg, Word>, cloneRegs: map<Reg, Word>,
                              back: Word) returns (kernel: Kernel)
    requires Boots(cpu.View(), cpu.InUser()) && Witnesses(first, second, boot)
    modifies cpu
    ensures kernel.Ready()
    ensures Confused(kernel.states, kernel.events, back, Get(parentRegs, Rbx), Get(cloneRegs, Rbx))
    ensures kernel.cpu == cpu && kernel.current == 0 && cpu.InUser() && cpu.rip == entry
  {
    hide Load, Get, MayCreate, OnStack, Separate, Roomy, Next, AllLocated, Run, FrameAt, Valid, ContextOf,
         Unowned, Kernel.Ready, PoppedLower, PoppedUpper, StackOf, Witnesses, CloneWords, ResumedAs, Given;
    kernel := BootWithTask(cpu, boot, first, second);
    ParentClones(kernel, first, second, program, entry, resumeUser);
    ParentInterrupted(kernel, first, second, entry, resumeUser, parentRegs, back);
    kernel.ReadyIsRun();
    ghost var trap := CloneInterrupted(kernel, first, second, entry, resumeUser, cloneRegs, back);
    kernel.ReadyIsRun();
    ghost var states, events := kernel.states, kernel.events;
    assert events[7] == events[..8][7] && states[7] == states[..9][7];
    ResumesLast(states, events, 0, 7, 11, 11);
    ContextRegister(states[7], back);
    ContextRegister(states[11], back);
    ContextPointer(states[12]);
    kernel.ReturnToUser();
  }
}
