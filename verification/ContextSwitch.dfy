/** The context switch: the assembly of `switch_task` and `resume_user` as steps on registers and
    memory, the stacks that task creation builds by hand, and what holds in every run of switches,
    task activity and task creations.  Memory is a map of 8-byte words by address. */
module ContextSwitch {

  type Word = int

  datatype Reg = Rax | Rbx | Rcx | Rdx | Rbp | Rsi | Rdi | R8 | R9 | R10 | R11 | R12 | R13 | R14 | R15

  type Memory = map<int, Word>

  datatype Cpu = Cpu(regs: map<Reg, Word>, rsp: int, rip: Word, mem: Memory, lock: bool, interrupts: bool)

  /** What a task must find again when it is resumed. */
  datatype Context = Context(rbx: Word, rbp: Word, r12: Word, r13: Word, r14: Word, r15: Word, rsp: int, rip: Word)

  function Load(mem: Memory, a: int): Word {
    if a in mem then mem[a] else 0
  }

  function Get(regs: map<Reg, Word>, r: Reg): Word {
    if r in regs then regs[r] else 0
  }

  function ContextOf(regs: map<Reg, Word>, rsp: int, rip: Word): Context {
    Context(Get(regs, Rbx), Get(regs, Rbp), Get(regs, R12), Get(regs, R13), Get(regs, R14), Get(regs, R15), rsp, rip)
  }

  predicate CallerSaved(r: Reg) { r in {Rax, Rcx, Rdx, Rsi, Rdi, R8, R9, R10, R11} }

  /** The seven words that `switch_task` leaves on a stack it switches away from, lowest first. */
  ghost predicate FrameAt(mem: Memory, sp: int, k: Context) {
    && Load(mem, sp) == k.r15 && Load(mem, sp + 8) == k.r14 && Load(mem, sp + 16) == k.r13
    && Load(mem, sp + 24) == k.r12 && Load(mem, sp + 32) == k.rbp && Load(mem, sp + 40) == k.rbx
    && Load(mem, sp + 48) == k.rip && k.rsp == sp + 56
  }

  /** Two memories agree except on the `room` bytes below sp, which a called function may use. */
  ghost predicate AgreeExceptBelow(mem: Memory, mem': Memory, sp: int, room: nat) {
    forall a | !(sp - room <= a < sp) :: Load(mem', a) == Load(mem, a)
  }

  /** Memory after `switch_task` has saved the registers and the stack pointer of the task in rsi. */
  function Saved(c: Cpu): Memory {
    c.mem[c.rsp - 8 := Get(c.regs, Rbx)][c.rsp - 16 := Get(c.regs, Rbp)][c.rsp - 24 := Get(c.regs, R12)]
         [c.rsp - 32 := Get(c.regs, R13)][c.rsp - 40 := Get(c.regs, R14)][c.rsp - 48 := Get(c.regs, R15)]
         [Get(c.regs, Rsi) + 8 := c.rsp - 48]
  }

  /** From the entry of `switch_task` to after its `ret`.  `unlock` uses at most `room` bytes of the
      stack it is called on. */
  ghost predicate SwitchEffect(c: Cpu, c': Cpu, room: nat) {
    var sp := Load(Saved(c), Get(c.regs, Rdi) + 8);
    && AgreeExceptBelow(Saved(c), c'.mem, sp, room)
    && FrameAt(Saved(c), sp, ContextOf(c'.regs, c'.rsp, c'.rip))
    && !c'.lock && c'.interrupts
  }

  /** What the processor pushes on an interrupt, lowest address first, and the number the stub adds. */
  datatype Trap = Trap(number: Word, rip: Word, cs: Word, flags: Word, rsp: Word, ss: Word)

  /** The bytes that an entry from user mode occupies below the address it starts at. */
  const TRAP_SIZE := 176

  /** The words of a trap, above the fifteen registers. */
  ghost predicate TrapAt(mem: Memory, sp: int, t: Trap) {
    && Load(mem, sp + 120) == t.number && Load(mem, sp + 136) == t.rip && Load(mem, sp + 144) == t.cs
    && Load(mem, sp + 152) == t.flags && Load(mem, sp + 160) == t.rsp && Load(mem, sp + 168) == t.ss
  }

  /** From the interrupted instruction in user mode to the call of the C handler: everything lies below
      `base`, and nothing else changes. */
  ghost predicate TrapEffect(c: Cpu, c': Cpu, t: Trap, base: int) {
    && c'.rsp == base - TRAP_SIZE && TrapAt(c'.mem, c'.rsp, t) && t.cs % 4 == 3
    && PoppedUpper(c.regs, c'.mem, c'.rsp) && PoppedLower(c.regs, c'.mem, c'.rsp + 64)
    && (forall r | !CallerSaved(r) :: Get(c'.regs, r) == Get(c.regs, r))
    && (forall a | !(base - TRAP_SIZE <= a < base) :: Load(c'.mem, a) == Load(c.mem, a))
  }

  class Processor {
    var regs: map<Reg, Word>
    var rsp: int
    var rip: Word
    var mem: Memory
    var lock: bool
    var interrupts: bool
    var cs: Word
    var ss: Word
    var flags: Word
    var userGs: bool

    function View(): Cpu
      reads this
    {
      Cpu(regs, rsp, rip, mem, lock, interrupts)
    }

    method Push(w: Word)
      modifies `rsp, `mem
      ensures rsp == old(rsp) - 8 && mem == old(mem)[rsp := w]
    {
      rsp := rsp - 8;
      mem := mem[rsp := w];
    }

    method PopWord() returns (w: Word)
      modifies `rsp
      ensures rsp == old(rsp) + 8 && w == Load(mem, old(rsp))
    {
      w := Load(mem, rsp);
      rsp := rsp + 8;
    }

    method Pop(r: Reg)
      modifies `rsp, `regs
      ensures rsp == old(rsp) + 8 && Get(regs, r) == Load(mem, old(rsp))
      ensures forall q | q != r :: Get(regs, q) == Get(old(regs), q)
    {
      var w := PopWord();
      regs := regs[r := w];
    }

    /** The first two arguments of a call. */
    method SetArguments(first: Word, second: Word)
      modifies `regs
      ensures Get(regs, Rdi) == first && Get(regs, Rsi) == second
      ensures forall r | !CallerSaved(r) :: Get(regs, r) == Get(old(regs), r)
    {
      regs := regs[Rdi := first][Rsi := second];
    }

    /** `call unlock`: the lock word is cleared, interrupts come back on, and the caller-saved
        registers and the stack below hold whatever the function leaves there. */
    method CallUnlock(clobber: map<Reg, Word>, scratch: Memory, ghost room: nat)
      requires forall r | r in clobber :: CallerSaved(r)
      requires forall a | a in scratch :: rsp - room <= a < rsp
      modifies `regs, `mem, `lock, `interrupts
      ensures !lock && interrupts && AgreeExceptBelow(old(mem), mem, rsp, room)
      ensures forall r | !CallerSaved(r) :: Get(regs, r) == Get(old(regs), r)
    {
      regs := regs + clobber;
      mem := mem + scratch;
      lock := false;
      interrupts := true;
    }

    /** The six pushes and the store of the stack pointer into the old task. */
    method SaveTask()
      modifies `rsp, `mem
      ensures mem == Saved(old(View()))
    {
      Push(Get(regs, Rbx));
      Push(Get(regs, Rbp));
      Push(Get(regs, R12));
      Push(Get(regs, R13));
      Push(Get(regs, R14));
      Push(Get(regs, R15));
      mem := mem[Get(regs, Rsi) + 8 := rsp];
    }

    /** The six pops and the return. */
    method RestoreTask()
      modifies `rsp, `regs, `rip
      ensures FrameAt(mem, old(rsp), ContextOf(regs, rsp, rip))
    {
      hide Get, Load;
      Pop(R15);
      Pop(R14);
      Pop(R13);
      Pop(R12);
      Pop(Rbp);
      Pop(Rbx);
      rip := PopWord();
    }

    method SwitchTask(clobber: map<Reg, Word>, scratch: Memory, ghost room: nat)
      requires forall r | r in clobber :: CallerSaved(r)
      requires forall a | a in scratch :: var sp := Load(Saved(View()), Get(regs, Rdi) + 8); sp - room <= a < sp
      modifies `regs, `rsp, `rip, `mem, `lock, `interrupts
      ensures SwitchEffect(old(View()), View(), room)
    {
      hide Saved, Get;
      SaveTask();
      rsp := Load(mem, Get(regs, Rdi) + 8);
      regs := regs[Rdi := SPINLOCK];
      CallUnlock(clobber, scratch, room);
      RestoreTask();
    }

    method Swapgs()
      modifies `userGs
      ensures userGs == !old(userGs)
    {
      userGs := !userGs;
    }

    /** The interrupt return of 64-bit mode: five words, whatever the privilege level. */
    method Iretq()
      modifies `rsp, `rip, `cs, `ss, `flags
      ensures rip == Load(mem, old(rsp)) && cs == Load(mem, old(rsp) + 8) && flags == Load(mem, old(rsp) + 16)
      ensures rsp == Load(mem, old(rsp) + 24) && ss == Load(mem, old(rsp) + 32)
    {
      var target := PopWord();
      cs := PopWord();
      flags := PopWord();
      var stack := PopWord();
      ss := PopWord();
      rip := target;
      rsp := stack;
    }

    method PopUpper()
      modifies `rsp, `regs
      ensures rsp == old(rsp) + 64 && PoppedUpper(regs, mem, old(rsp))
    {
      hide Get, Load;
      Pop(R15); Pop(R14); Pop(R13); Pop(R12); Pop(R11); Pop(R10); Pop(R9); Pop(R8);
    }

    method PopLower()
      modifies `rsp, `regs
      ensures rsp == old(rsp) + 56 && PoppedLower(regs, mem, old(rsp))
      ensures forall r | r !in {Rdi, Rsi, Rbp, Rdx, Rcx, Rbx, Rax} :: Get(regs, r) == Get(old(regs), r)
    {
      hide Get, Load;
      Pop(Rdi); Pop(Rsi); Pop(Rbp); Pop(Rdx); Pop(Rcx); Pop(Rbx); Pop(Rax);
    }

    method ResumeUser()
      modifies `rsp, `regs, `rip, `cs, `ss, `flags, `userGs
      ensures UserEffect(old(View()), View()) && userGs == !old(userGs)
      ensures cs == Load(mem, old(rsp) + 144) && flags == Load(mem, old(rsp) + 152) && ss == Load(mem, old(rsp) + 168)
    {
      hide Get, Load;
      PopUpper();
      PopLower();
      rsp := rsp + 16;
      Swapgs();
      Iretq();
    }

    // ----- Entries and returns -----

    /** Whether the running code is in user mode, by the privilege level in its code segment. */
    predicate InUser()
      reads `cs
    {
      cs % 4 == 3
    }

    /** The processor's part of an interrupt: in user mode it starts at the address in the task state
        segment, else where the stack pointer is. */
    method Interrupt(rsp0: int, handler: Word)
      modifies `rsp, `mem, `rip, `cs, `ss, `interrupts
      ensures rsp == (if old(InUser()) then rsp0 else old(rsp)) - 40 && cs == 8 && !interrupts
      ensures Load(mem, rsp) == old(rip) && Load(mem, rsp + 8) == old(cs) && Load(mem, rsp + 16) == flags
      ensures Load(mem, rsp + 24) == old(rsp) && Load(mem, rsp + 32) == old(ss)
      ensures forall a | !(rsp <= a < rsp + 40) :: Load(mem, a) == Load(old(mem), a)
    {
      hide Load;
      var sp := if InUser() then rsp0 else rsp;
      sp := PushTo(sp, ss);
      sp := PushTo(sp, rsp);
      sp := PushTo(sp, flags);
      sp := PushTo(sp, cs);
      sp := PushTo(sp, rip);
      rsp, rip, cs, ss, interrupts := sp, handler, 8, 0, false;
    }

    method PushLower()
      modifies `rsp, `mem
      ensures rsp == old(rsp) - 56 && mem == WithLower(old(mem), regs, rsp)
    {
      Push(Get(regs, Rax));
      Push(Get(regs, Rbx));
      Push(Get(regs, Rcx));
      Push(Get(regs, Rdx));
      Push(Get(regs, Rbp));
      Push(Get(regs, Rsi));
      Push(Get(regs, Rdi));
    }

    method PushUpper()
      modifies `rsp, `mem
      ensures rsp == old(rsp) - 64 && mem == WithUpper(old(mem), regs, rsp)
    {
      Push(Get(regs, R8));
      Push(Get(regs, R9));
      Push(Get(regs, R10));
      Push(Get(regs, R11));
      Push(Get(regs, R12));
      Push(Get(regs, R13));
      Push(Get(regs, R14));
      Push(Get(regs, R15));
    }

    /** The fifteen pushes, and the stack pointer as the handler's argument. */
    method PushRegisters()
      modifies `rsp, `regs, `mem
      ensures rsp == old(rsp) - 120
      ensures PoppedUpper(old(regs), mem, rsp) && PoppedLower(old(regs), mem, rsp + 64)
      ensures forall a | !(rsp <= a < rsp + 120) :: Load(mem, a) == Load(old(mem), a)
      ensures forall r | !CallerSaved(r) :: Get(regs, r) == Get(old(regs), r)
    {
      hide Get, Load, PoppedUpper, PoppedLower, CallerSaved, WithLower, WithUpper;
      LowerPushed(mem, regs, rsp - 56);
      PushLower();
      ghost var mem1 := mem;
      UpperPushed(mem, regs, rsp - 64);
      PushUpper();
      LowerKept(regs, mem1, mem, rsp + 64);
      SetArguments(rsp, Get(regs, Rsi));
    }

    /** An interrupt up to the call of the C handler.  The stubs push a second word and the number, and
        `isr_common` swaps gs if the interrupted code segment is not the kernel's. */
    method EnterKernel(rsp0: int, number: Word, handler: Word)
      modifies `rsp, `regs, `mem, `rip, `cs, `ss, `interrupts, `userGs
      ensures rsp == (if old(InUser()) then rsp0 else old(rsp)) - TRAP_SIZE && cs == 8 && !interrupts
      ensures old(InUser()) ==>
                TrapEffect(old(View()), View(), Trap(number, old(rip), old(cs), flags, old(rsp), old(ss)), rsp0)
      ensures userGs == (if old(cs) != 8 then !old(userGs) else old(userGs))
    {
      hide Get, Load, PoppedUpper, PoppedLower, CallerSaved;
      Interrupt(rsp0, handler);
      rsp := PushTo(rsp, 0);
      rsp := PushTo(rsp, number);
      if Load(mem, rsp + 24) != 8 {
        Swapgs();
      }
      PushRegisters();
    }

    /** A system call up to the call of the C handler: gs is swapped whoever called, and both words are zero. */
    method EnterSystemCall(rsp0: int, handler: Word)
      modifies `rsp, `regs, `mem, `rip, `cs, `ss, `interrupts, `userGs
      ensures rsp == (if old(InUser()) then rsp0 else old(rsp)) - TRAP_SIZE && cs == 8 && !interrupts
      ensures old(InUser()) ==>
                TrapEffect(old(View()), View(), Trap(0, old(rip), old(cs), flags, old(rsp), old(ss)), rsp0)
      ensures userGs == !old(userGs)
    {
      hide Get, Load, PoppedUpper, PoppedLower, CallerSaved;
      Interrupt(rsp0, handler);
      Swapgs();
      rsp := PushTo(rsp, 0);
      rsp := PushTo(rsp, 0);
      PushRegisters();
    }

    /** The end of `isr_common`: the registers, and an interrupt return to where the trap says. */
    method LeaveKernel()
      modifies `rsp, `regs, `rip, `cs, `ss, `flags, `userGs
      ensures UserEffect(old(View()), View())
      ensures cs == Load(mem, old(rsp) + 144) && flags == Load(mem, old(rsp) + 152) && ss == Load(mem, old(rsp) + 168)
      ensures userGs == (if cs != 8 then !old(userGs) else old(userGs))
    {
      hide Get, Load;
      PopUpper();
      PopLower();
      if Load(mem, rsp + 24) != 8 {
        Swapgs();
      }
      rsp := rsp + 16;
      Iretq();
    }

    /** An interrupt in user mode from the first word to the last.  Whatever the handler leaves in the registers
        and elsewhere in memory, the program goes on as if nothing had happened. */
    method ServeInterrupt(rsp0: int, number: Word, handler: Word, left: map<Reg, Word>, work: Memory)
      requires InUser() && forall a | a in work :: !(rsp0 - TRAP_SIZE <= a < rsp0)
      modifies `rsp, `regs, `mem, `rip, `cs, `ss, `flags, `interrupts, `userGs
      ensures forall r :: Get(regs, r) == Get(old(regs), r)
      ensures rip == old(rip) && rsp == old(rsp) && cs == old(cs) && ss == old(ss) && flags == old(flags)
      ensures userGs == old(userGs)
      ensures forall a | a !in work && !(rsp0 - TRAP_SIZE <= a < rsp0) :: Load(mem, a) == Load(old(mem), a)
    {
      hide Get, PoppedUpper, PoppedLower, CallerSaved;
      ghost var before := View();
      ghost var trap := Trap(number, rip, cs, flags, rsp, ss);
      EnterKernel(rsp0, number, handler);
      ghost var entered := View();
      regs := left;
      mem := mem + work;
      ghost var served := View();
      LeaveKernel();
      TrapRestores(before, entered, served, View(), trap, rsp0);
    }

    /** A system call likewise, but that the handler's answer is left in the saved rax. */
    method ServeSystemCall(rsp0: int, handler: Word, left: map<Reg, Word>, work: Memory, answer: Word)
      requires InUser() && forall a | a in work :: !(rsp0 - TRAP_SIZE <= a < rsp0)
      modifies `rsp, `regs, `mem, `rip, `cs, `ss, `flags, `interrupts, `userGs
      ensures forall r | r != Rax :: Get(regs, r) == Get(old(regs), r)
      ensures Get(regs, Rax) == answer
      ensures rip == old(rip) && rsp == old(rsp) && cs == old(cs) && ss == old(ss) && flags == old(flags)
      ensures userGs == old(userGs)
      ensures forall a | a !in work && !(rsp0 - TRAP_SIZE <= a < rsp0) :: Load(mem, a) == Load(old(mem), a)
    {
      hide Get, PoppedUpper, PoppedLower, CallerSaved;
      ghost var before := View();
      ghost var trap := Trap(0, rip, cs, flags, rsp, ss);
      EnterSystemCall(rsp0, handler);
      ghost var entered := View();
      regs := left;
      mem := mem + work;
      Store(rsp + 112, answer);
      ghost var served := View();
      ResumeUser();
      AnswerRestores(before, entered, served, View(), trap, rsp0);
    }

    /** switch_to_user: a hand-made interrupt frame for the given entry point on the running stack. */
    method SwitchToUser(entry: Word)
      modifies `rsp, `regs, `mem, `rip, `cs, `ss, `flags
      ensures cs == 27 && InUser() && rip == entry && rsp == old(rsp) && ss == 35 && flags == old(flags)
      ensures forall r | !CallerSaved(r) :: Get(regs, r) == Get(old(regs), r)
      ensures forall a | !(old(rsp) - 40 <= a < old(rsp)) :: Load(mem, a) == Load(old(mem), a)
    {
      hide Load;
      regs := regs[Rax := rsp];
      var stack := rsp;
      rsp := PushTo(rsp, 35);
      rsp := PushTo(rsp, stack);
      rsp := PushTo(rsp, flags);
      rsp := PushTo(rsp, 27);
      rsp := PushTo(rsp, entry);
      Iretq();
    }

    method Store(a: int, w: Word)
      modifies `mem
      ensures Load(mem, a) == w && forall b | b != a :: Load(mem, b) == Load(old(mem), b)
    {
      mem := mem[a := w];
    }

    /** `*--rsp = w` through a pointer of C. */
    method PushTo(sp: int, w: Word) returns (sp': int)
      modifies `mem
      ensures sp' == sp - 8 && Load(mem, sp') == w
      ensures forall a | a != sp' :: Load(mem, a) == Load(old(mem), a)
    {
      sp' := sp - 8;
      Store(sp', w);
    }

    /** memcpy of n words between two places that do not overlap. */
    method CopyWords(dst: int, src: int, n: nat)
      requires dst + 8 * n <= src || src + 8 * n <= dst
      modifies `mem
      ensures forall k | 0 <= k < n :: WordAt(mem, dst, k) == WordAt(old(mem), src, k)
      ensures forall a | !(dst <= a < dst + 8 * n) :: Load(mem, a) == Load(old(mem), a)
    {
      hide Load;
      for i := 0 to n
        invariant forall k | 0 <= k < i :: WordAt(mem, dst, k) == WordAt(old(mem), src, k)
        invariant forall a | !(dst <= a < dst + 8 * i) :: Load(mem, a) == Load(old(mem), a)
      {
        label Before:
        Store(dst + 8 * i, Load(mem, src + 8 * i));
        forall k | 0 <= k < i + 1 ensures WordAt(mem, dst, k) == WordAt(old(mem), src, k) {
          if k < i {
            assert old@Before(WordAt(mem, dst, k)) == WordAt(old(mem), src, k);
          }
        }
      }
    }

    /** The stack KernelInitializeProcess builds below `top` for a task that starts at `entry`. */
    method BuildKernelStack(top: int, entry: Word) returns (sp: int)
      modifies `mem
      ensures sp == top - 56 && FrameAt(mem, sp, Context(0, 0, 0, 0, 0, 0, top, entry))
      ensures forall a | !(sp <= a < top) :: Load(mem, a) == Load(old(mem), a)
    {
      hide Load;
      sp := PushTo(top, entry);
      sp := PushTo(sp, 0);
      sp := PushTo(sp, 0);
      sp := PushTo(sp, 0);
      sp := PushTo(sp, 0);
      sp := PushTo(sp, 0);
      sp := PushTo(sp, 0);
    }

    method PushZeros(sp: int, n: nat) returns (sp': int)
      modifies `mem
      ensures sp' == sp - 8 * n
      ensures ZeroWords(mem, sp', n)
      ensures forall a | !(sp' <= a < sp) :: Load(mem, a) == Load(old(mem), a)
    {
      sp' := sp;
      for i := 0 to n
        invariant sp' == sp - 8 * i
        invariant ZeroWords(mem, sp', i)
        invariant forall a | !(sp' <= a < sp) :: Load(mem, a) == Load(old(mem), a)
      {
        label Before:
        ghost var last := sp';
        sp' := PushTo(sp', 0);
        forall j | 0 <= j < i + 1 ensures WordAt(mem, sp', j) == 0 {
          if j > 0 {
            assert old@Before(WordAt(mem, last, j - 1)) == 0;
          }
        }
      }
    }

    /** The stack KernelCloneProcess builds below `top`: a switch frame that returns into
        `resume_user`, fifteen zero registers, and an interrupt frame for user mode. */
    method BuildCloneStack(top: int, entry: Word, userStack: Word, resumeUser: Word) returns (sp: int)
      modifies `mem
      ensures sp == top - 232 && CloneStackAt(mem, top, entry, userStack, resumeUser)
      ensures forall a | !(sp <= a < top) :: Load(mem, a) == Load(old(mem), a)
    {
      hide Load;
      sp := PushTo(top, 35);
      sp := PushTo(sp, 0);
      sp := PushTo(sp, 0x202);
      sp := PushTo(sp, 27);
      sp := PushTo(sp, entry);
      sp := PushZeros(sp, 17);
      ghost var zeroed := mem;
      sp := PushTo(sp, resumeUser);
      sp := PushZeros(sp, 6);
      ZeroFrame(mem, sp);
      Store(top - 16, userStack);
      ZerosKept(zeroed, mem, top - 176, 17);
    }
  }

  lemma ZerosKept(mem: Memory, mem': Memory, sp: int, n: nat)
    requires ZeroWords(mem, sp, n)
    requires forall a | sp <= a < sp + 8 * n :: Load(mem', a) == Load(mem, a)
    ensures ZeroWords(mem', sp, n)
  {
    forall j | 0 <= j < n ensures WordAt(mem', sp, j) == 0 {
      assert WordAt(mem, sp, j) == 0;
    }
  }

  lemma ZeroFrame(mem: Memory, sp: int)
    requires ZeroWords(mem, sp, 6)
    ensures FrameAt(mem, sp, Context(0, 0, 0, 0, 0, 0, sp + 56, Load(mem, sp + 48)))
  {
    assert WordAt(mem, sp, 0) == 0 && WordAt(mem, sp, 1) == 0 && WordAt(mem, sp, 2) == 0;
    assert WordAt(mem, sp, 3) == 0 && WordAt(mem, sp, 4) == 0 && WordAt(mem, sp, 5) == 0;
  }

  ghost predicate PoppedUpper(regs: map<Reg, Word>, mem: Memory, sp: int) {
    && Get(regs, R15) == Load(mem, sp) && Get(regs, R14) == Load(mem, sp + 8)
    && Get(regs, R13) == Load(mem, sp + 16) && Get(regs, R12) == Load(mem, sp + 24)
    && Get(regs, R11) == Load(mem, sp + 32) && Get(regs, R10) == Load(mem, sp + 40)
    && Get(regs, R9) == Load(mem, sp + 48) && Get(regs, R8) == Load(mem, sp + 56)
  }

  ghost predicate PoppedLower(regs: map<Reg, Word>, mem: Memory, sp: int) {
    && Get(regs, Rdi) == Load(mem, sp) && Get(regs, Rsi) == Load(mem, sp + 8)
    && Get(regs, Rbp) == Load(mem, sp + 16) && Get(regs, Rdx) == Load(mem, sp + 24)
    && Get(regs, Rcx) == Load(mem, sp + 32) && Get(regs, Rbx) == Load(mem, sp + 40)
    && Get(regs, Rax) == Load(mem, sp + 48)
  }

  /** Two register files agree in the registers that the first, or the second, part of a trap holds. */
  lemma UpperUnique(regs: map<Reg, Word>, regs': map<Reg, Word>, mem: Memory, mem': Memory, sp: int)
    requires PoppedUpper(regs, mem, sp) && PoppedUpper(regs', mem', sp)
    requires forall a | sp <= a < sp + 64 :: Load(mem', a) == Load(mem, a)
    ensures forall r | r in {R8, R9, R10, R11, R12, R13, R14, R15} :: Get(regs', r) == Get(regs, r)
  {
    hide Load, Get;
  }

  lemma LowerUnique(regs: map<Reg, Word>, regs': map<Reg, Word>, mem: Memory, mem': Memory, sp: int)
    requires PoppedLower(regs, mem, sp) && PoppedLower(regs', mem', sp)
    requires forall a | sp <= a < sp + 48 :: Load(mem', a) == Load(mem, a)
    ensures forall r | r in {Rbx, Rcx, Rdx, Rbp, Rsi, Rdi} :: Get(regs', r) == Get(regs, r)
    ensures Load(mem', sp + 48) == Load(mem, sp + 48) ==> Get(regs', Rax) == Get(regs, Rax)
  {
    hide Load, Get;
  }

  /** Leaving by the words of a trap that are as the entry left them, but for the saved rax, restores all else. */
  lemma AnswerRestores(c: Cpu, entered: Cpu, served: Cpu, c': Cpu, t: Trap, base: int)
    requires TrapEffect(c, entered, t, base) && UserEffect(served, c') && served.rsp == entered.rsp
    requires forall a | base - TRAP_SIZE <= a < base && a != base - 64 :: Load(served.mem, a) == Load(entered.mem, a)
    ensures forall r | r != Rax :: Get(c'.regs, r) == Get(c.regs, r)
    ensures Get(c'.regs, Rax) == Load(served.mem, base - 64)
    ensures c'.rip == t.rip && c'.rsp == t.rsp && TrapAt(served.mem, served.rsp, t)
  {
    hide Load, Get, PoppedUpper;
    UpperUnique(c.regs, c'.regs, entered.mem, served.mem, served.rsp);
    LowerUnique(c.regs, c'.regs, entered.mem, served.mem, served.rsp + 64);
  }

  /** If the saved rax is also as it was, everything is restored. */
  lemma TrapRestores(c: Cpu, entered: Cpu, served: Cpu, c': Cpu, t: Trap, base: int)
    requires TrapEffect(c, entered, t, base) && UserEffect(served, c') && served.rsp == entered.rsp
    requires forall a | base - TRAP_SIZE <= a < base :: Load(served.mem, a) == Load(entered.mem, a)
    ensures forall r :: Get(c'.regs, r) == Get(c.regs, r)
    ensures c'.rip == t.rip && c'.rsp == t.rsp && TrapAt(served.mem, served.rsp, t)
  {
    hide Load, PoppedUpper;
    AnswerRestores(c, entered, served, c', t, base);
    assert Load(served.mem, base - 64) == Load(entered.mem, base - 64);
    forall r ensures Get(c'.regs, r) == Get(c.regs, r) {
      if r == Rax {
        assert Get(c.regs, Rax) == Load(entered.mem, base - 64);
      }
    }
  }

  function WithLower(mem: Memory, regs: map<Reg, Word>, sp: int): Memory {
    mem[sp + 48 := Get(regs, Rax)][sp + 40 := Get(regs, Rbx)][sp + 32 := Get(regs, Rcx)][sp + 24 := Get(regs, Rdx)]
       [sp + 16 := Get(regs, Rbp)][sp + 8 := Get(regs, Rsi)][sp := Get(regs, Rdi)]
  }

  function WithUpper(mem: Memory, regs: map<Reg, Word>, sp: int): Memory {
    mem[sp + 56 := Get(regs, R8)][sp + 48 := Get(regs, R9)][sp + 40 := Get(regs, R10)][sp + 32 := Get(regs, R11)]
       [sp + 24 := Get(regs, R12)][sp + 16 := Get(regs, R13)][sp + 8 := Get(regs, R14)][sp := Get(regs, R15)]
  }

  lemma LowerPushed(mem: Memory, regs: map<Reg, Word>, sp: int)
    ensures PoppedLower(regs, WithLower(mem, regs, sp), sp)
    ensures forall a | !(sp <= a < sp + 56) :: Load(WithLower(mem, regs, sp), a) == Load(mem, a)
  {
    hide Get;
  }

  lemma UpperPushed(mem: Memory, regs: map<Reg, Word>, sp: int)
    ensures PoppedUpper(regs, WithUpper(mem, regs, sp), sp)
    ensures forall a | !(sp <= a < sp + 64) :: Load(WithUpper(mem, regs, sp), a) == Load(mem, a)
  {
    hide Get;
  }

  lemma LowerKept(regs: map<Reg, Word>, mem: Memory, mem': Memory, sp: int)
    requires PoppedLower(regs, mem, sp) && forall a | sp <= a < sp + 56 :: Load(mem', a) == Load(mem, a)
    ensures PoppedLower(regs, mem', sp)
  {
    hide Load, Get;
  }

  /** From the entry of `resume_user` to after its `iretq`. */
  ghost predicate UserEffect(c: Cpu, c': Cpu) {
    && PoppedUpper(c'.regs, c.mem, c.rsp) && PoppedLower(c'.regs, c.mem, c.rsp + 64) && c'.mem == c.mem
    && c'.rip == Load(c.mem, c.rsp + 136) && c'.rsp == Load(c.mem, c.rsp + 160)
  }

  /** The n words from sp upwards are zero. */
  ghost predicate ZeroWords(mem: Memory, sp: int, n: nat) {
    forall j | 0 <= j < n :: WordAt(mem, sp, j) == 0
  }

  function WordAt(mem: Memory, sp: int, j: nat): Word { Load(mem, sp + 8 * j) }

  ghost predicate CloneStackAt(mem: Memory, top: int, entry: Word, userStack: Word, resumeUser: Word) {
    && FrameAt(mem, top - 232, Context(0, 0, 0, 0, 0, 0, top - 176, resumeUser))
    && ZeroWords(mem, top - 176, 17)
    && Load(mem, top - 40) == entry && Load(mem, top - 32) == 27 && Load(mem, top - 24) == 0x202
    && Load(mem, top - 16) == userStack && Load(mem, top - 8) == 35
  }

  /** The address of the kernel's spinlock; its value plays no part in the model. */
  const SPINLOCK: Word := 0
}
