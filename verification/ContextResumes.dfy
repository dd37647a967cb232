/** With what context a task goes on, over every run: exactly when it is the one it gave up, and whose it is
    otherwise. */
module ContextResumes {
  import opened ContextSwitch
  import opened ContextSwitchRuns

  /** The frame that the running code saves at its stack pointer is out of every other task's reach: it lies on
      the stack made for the task or, for the boot code, above the address where user mode enters. */
  predicate Private(s: System)
    requires s.current < |s.on|
  {
    s.on[s.current] == Own && (s.current != 0 || s.cpu.rsp - 56 >= s.rsp0)
  }

  /** The running code stays off the words below `rsp0`: it is not the first task's, and it is in user mode or on
      the kernel stack made for its task. */
  predicate OffEntry(s: System) {
    s.current < |s.on| && s.current != 0 && (s.user || s.on[s.current] == Own)
  }

  /** A frame below `rsp0` is out of the running code's reach exactly if that code stays off those words; a
      frame on a stack of its own always is. */
  lemma FrameInReach(s: System, t: nat, sp: int)
    requires Valid(s) && t < |s.tasks| && t != s.current && forall a | sp <= a < sp + 56 :: StackOf(s, t, a)
    ensures s.on[t] == Entry ==> (Clear(s, sp) <==> OffEntry(s))
    ensures s.on[t] == Own && (t != 0 || sp >= s.rsp0) ==> Clear(s, sp)
    ensures OffEntry(s) ==> Clear(s, sp)
  {
    forall a | sp <= a < sp + 56
      ensures s.on[t] == Own && (t != 0 || sp >= s.rsp0) ==> !Touches(s, a)
      ensures OffEntry(s) ==> !Touches(s, a)
    {
      assert StackOf(s, t, a);
      if s.on[t] == Own && (t != 0 || sp >= s.rsp0) {
        OwnIsUntouched(s, t, a);
      }
      if OffEntry(s) && !s.user {
        assert Owns(s.tasks[if s.on[t] == Own then t else 0], a);
      }
    }
    if s.on[t] == Entry && !OffEntry(s) {
      assert StackOf(s, t, sp);
      assert Touches(s, sp);
    }
  }

  lemma OutStays(states: seq<System>, events: seq<Event>, room: nat, i: nat, j: nat, t: nat)
    requires Run(states, events, room) && i < j < |events| && NotResumed(events, i, j, t)
    requires events[i].Switch? && states[i].current == t
    ensures t < |states[i].tasks| == |states[i].on|
    ensures states[i + 1].current != t && t < |states[i + 1].tasks| == |states[i + 1].on|
    ensures t < |states[j].tasks| == |states[j].on| && states[j].current != t && states[j].on[t] == states[i].on[t]
    ensures states[i + 1].tasks == states[i].tasks && states[i + 1].on == states[i].on
    ensures Pointer(states[i + 1], t) == Pointer(states[j], t) == states[i].cpu.rsp - 56
    ensures states[j].tasks[t] == states[i].tasks[t]
  {
    hide Run, Load, SwitchEffect, Called, StackOf, Separate;
    RunLength(states, events, room);
    assert Next(states[i], events[i], states[i + 1]) && events[i].room == room by { StepOf(states, events, room, i); }
    RunLocates(states, events, room, i);
    RunLocates(states, events, room, i + 1);
    SwitchStores(states[i], events[i].next, events[i].back, room, states[i + 1]);
    StaysOut(states, events, room, i + 1, j, t);
  }

  lemma RunLength(states: seq<System>, events: seq<Event>, room: nat)
    requires Run(states, events, room)
    ensures |states| == |events| + 1
  {
  }

  lemma StepOf(states: seq<System>, events: seq<Event>, room: nat, i: nat)
    requires Run(states, events, room) && i < |events|
    ensures |states| == |events| + 1 && Next(states[i], events[i], states[i + 1]) && Roomy(events[i], room)
    ensures events[i].Switch? ==> events[i].room == room
  {
    hide Next, Roomy;
  }

  /** The task switched out at i goes on at j with the context of whoever last saved a frame at that place, its
      own if nobody did since. */
  lemma ResumesLast(states: seq<System>, events: seq<Event>, room: nat, i: nat, m: nat, j: nat)
    requires Run(states, events, room) && i <= m <= j < |events| && i < j
    requires events[i].Switch? && events[m].Switch? && events[j].Switch?
    requires events[j].next == states[i].current && NotResumed(events, i, j, states[i].current)
    requires states[m].cpu.rsp == states[i].cpu.rsp && ClearUntil(states, m, j, states[i].cpu.rsp - 56)
    ensures ResumedAs(states[j + 1]) == Given(states[m], events[m].back)
    ensures !states[j + 1].cpu.lock && states[j + 1].cpu.interrupts
  {
    hide Run, Load, FrameAt, Clear, SwitchEffect, Called, StackOf, Separate, ContextOf;
    RunLength(states, events, room);
    var t, sp := states[i].current, states[i].cpu.rsp - 56;
    OutStays(states, events, room, i, j, t);
    StepOf(states, events, room, m);
    StepOf(states, events, room, j);
    RunLocates(states, events, room, m);
    RunLocates(states, events, room, j);
    var r := SwitchFacts(states[j], t, events[j].back, room, states[j + 1]);
    if m == j {
      SwitchConfuses(states[j], t, events[j].back, room, states[j + 1]);
    } else {
      assert Clear(states[m + 1], sp) && Clear(states[j], sp);
      SwitchSaves(states[m], events[m].next, events[m].back, room, states[m + 1]);
      OutAt(states, events, room, i, m + 1, j, t);
      FrameStays(states, events, room, m, j, t, Given(states[m], events[m].back));
      SwitchResumes(states[j], t, events[j].back, room, Given(states[m], events[m].back), states[j + 1]);
    }
  }

  lemma OutAt(states: seq<System>, events: seq<Event>, room: nat, i: nat, n: nat, j: nat, t: nat)
    requires Run(states, events, room) && i < n <= j < |events| && NotResumed(events, i, j, t)
    requires events[i].Switch? && states[i].current == t
    ensures t < |states[i].tasks| == |states[i].on|
    ensures t < |states[n].tasks| == |states[n].on| && states[n].current != t
    ensures Pointer(states[n], t) == states[i].cpu.rsp - 56 && states[n].on[t] == states[i].on[t]
    ensures states[n].tasks[t] == states[i].tasks[t]
  {
    hide Run, Load, StackOf;
    RunLength(states, events, room);
    OutStays(states, events, room, i, j, t);
    StaysOut(states, events, room, i + 1, n, t);
  }

  /** A switched-out task stays clear of the others if its frame is private, or while they stay off `rsp0`. */
  lemma StaysClear(states: seq<System>, events: seq<Event>, room: nat, i: nat, j: nat)
    requires Run(states, events, room) && i < j < |events| && events[i].Switch?
    requires states[i].current < |states[i].on| && NotResumed(events, i, j, states[i].current)
    requires Private(states[i]) || forall n | i < n <= j :: OffEntry(states[n])
    ensures ClearUntil(states, i, j, states[i].cpu.rsp - 56)
  {
    hide Run, Load, Clear, StackOf, Valid;
    RunLength(states, events, room);
    var t, sp := states[i].current, states[i].cpu.rsp - 56;
    forall n | i < n <= j && n < |states| ensures Clear(states[n], sp) {
      OutAt(states, events, room, i, n, j, t);
      RunLocates(states, events, room, n);
      assert Located(states[n], t, room);
      SameEntry(states, events, room, i, n);
      FrameInReach(states[n], t, sp);
    }
  }

  lemma {:induction false} SameEntry(states: seq<System>, events: seq<Event>, room: nat, i: nat, j: nat)
    requires Run(states, events, room) && i <= j < |states|
    ensures states[j].boot == states[i].boot && states[j].rsp0 == states[i].rsp0
    decreases j - i
  {
    hide Run, FrameAt, CloneStackAt, SwitchEffect, Called, TrapEffect, Kept, Separate;
    RunLength(states, events, room);
    if i < j {
      SameEntry(states, events, room, i, j - 1);
      StepOf(states, events, room, j - 1);
    }
  }

  /** In every run, a task that is switched out and later resumed finds the callee-saved registers, stack
      pointer and return address it had, if its frame is private, or if in between no kernel code ran below
      `rsp0`: no other task entered from user mode, and the boot code did not run. */
  lemma ResumeFindsContext(states: seq<System>, events: seq<Event>, room: nat, i: nat, j: nat)
    requires Run(states, events, room) && i < j < |events| && events[i].Switch? && events[j].Switch?
    requires events[j].next == states[i].current && NotResumed(events, i, j, states[i].current)
    requires states[i].current < |states[i].on|
    requires Private(states[i]) || forall n | i < n <= j :: OffEntry(states[n])
    ensures ResumedAs(states[j + 1]) == Given(states[i], events[i].back)
    ensures !states[j + 1].cpu.lock && states[j + 1].cpu.interrupts
  {
    hide Run, Private, OffEntry, Given, ResumedAs, ClearUntil;
    RunLength(states, events, room);
    StaysClear(states, events, room, i, j);
    ResumesLast(states, events, room, i, i, j);
  }

  /** A task switched out below `rsp0` goes on with the context of the last task that was switched out at the
      same depth there; it finds its own if and only if that was the same. */
  lemma EntryStackIsShared(states: seq<System>, events: seq<Event>, room: nat, i: nat, m: nat, j: nat)
    requires Run(states, events, room) && i <= m <= j < |events| && i < j
    requires events[i].Switch? && events[m].Switch? && events[j].Switch?
    requires events[j].next == states[i].current && NotResumed(events, i, j, states[i].current)
    requires states[m].cpu.rsp == states[i].cpu.rsp && forall n | m < n <= j :: OffEntry(states[n])
    ensures ResumedAs(states[j + 1]) == Given(states[m], events[m].back)
    ensures ResumedAs(states[j + 1]) == Given(states[i], events[i].back)
       <==> Given(states[m], events[m].back) == Given(states[i], events[i].back)
  {
    hide Run, Load, Clear, StackOf, Valid, Given, ResumedAs;
    RunLength(states, events, room);
    var t, sp := states[i].current, states[i].cpu.rsp - 56;
    forall n | m < n <= j && n < |states| ensures Clear(states[n], sp) {
      OutAt(states, events, room, i, n, j, t);
      RunLocates(states, events, room, n);
      assert Located(states[n], t, room);
      FrameInReach(states[n], t, sp);
    }
    ResumesLast(states, events, room, i, m, j);
  }

  // ----- The first resume -----

  /** A created task's frame, beside others, lies on a stack that nobody else reaches. */
  lemma CreatedResumes(states: seq<System>, events: seq<Event>, room: nat, i: nat, j: nat, k: Context)
    requires Run(states, events, room) && i < j < |events| && events[j].Switch? && states[i].tasks != []
    requires |states[i + 1].tasks| == |states[i].tasks| + 1 == |states[i + 1].on|
    requires states[i + 1].current != |states[i].tasks| && states[i + 1].on[|states[i].tasks|] == Own
    requires events[j].next == |states[i].tasks| && NotResumed(events, i, j, |states[i].tasks|)
    requires FrameAt(states[i + 1].cpu.mem, Pointer(states[i + 1], |states[i].tasks|), k)
    ensures ResumedAs(states[j + 1]) == k
    ensures forall a | a in states[i + 1].tasks[|states[i].tasks|].area ::
              Load(states[j].cpu.mem, a) == Load(states[i + 1].cpu.mem, a)
  {
    hide Run, Load, FrameAt, Clear, StackOf, Valid;
    RunLength(states, events, room);
    var t := |states[i].tasks|;
    var sp := Pointer(states[i + 1], t);
    StaysOut(states, events, room, i + 1, j, t);
    forall n | i < n <= j && n < |states| ensures Clear(states[n], sp) {
      StaysOut(states, events, room, i + 1, n, t);
      RunLocates(states, events, room, n);
      assert Located(states[n], t, room);
      FrameInReach(states[n], t, sp);
    }
    FrameStays(states, events, room, i, j, t, k);
    StepOf(states, events, room, j);
    RunLocates(states, events, room, j);
    SwitchResumes(states[j], t, events[j].back, room, k, states[j + 1]);
  }

  /** In every run, a task created beside others that is switched to for the first time starts at its
      entry point, on its empty stack, with zero registers. */
  lemma FirstRunStartsAtEntry(states: seq<System>, events: seq<Event>, room: nat, i: nat, j: nat)
    requires Run(states, events, room)
    requires i < j < |events| && events[i].Create? && events[j].Switch? && states[i].tasks != []
    requires events[j].next == |states[i].tasks| && NotResumed(events, i, j, |states[i].tasks|)
    ensures ResumedAs(states[j + 1]) == Context(0, 0, 0, 0, 0, 0, events[i].top, events[i].entry)
  {
    hide Run, Load, FrameAt, ContextOf, Kept, Separate, StackOf;
    RunLength(states, events, room);
    StepOf(states, events, room, i);
    RunLocates(states, events, room, i);
    var k := Context(0, 0, 0, 0, 0, 0, events[i].top, events[i].entry);
    CreatedResumes(states, events, room, i, j, k);
  }

  /** In every run, a cloned task that is switched to for the first time returns into `resume_user`, with the
      words that were built for it above. */
  lemma CloneStarts(states: seq<System>, events: seq<Event>, room: nat, i: nat, j: nat)
    requires Run(states, events, room)
    requires i < j < |events| && events[i].Clone? && events[j].Switch?
    requires events[j].next == |states[i].tasks| && NotResumed(events, i, j, |states[i].tasks|)
    ensures states[j + 1].cpu.rip == events[i].resumeUser && states[j + 1].cpu.rsp == events[i].top - 176
    ensures CloneWords(states[j + 1].cpu.mem, states[j + 1].cpu.rsp, events[i].entry, events[i].userStack)
  {
    hide Run, Load, Get, FrameAt, Kept, Separate, StackOf;
    RunLength(states, events, room);
    var e, t := events[i], |states[i].tasks|;
    StepOf(states, events, room, i);
    RunLocates(states, events, room, i);
    var k := Context(0, 0, 0, 0, 0, 0, e.top - 176, e.resumeUser);
    CreatedResumes(states, events, room, i, j, k);
    SwitchKeepsStack(states, events, room, i, j);
    assert WordAt(states[i + 1].cpu.mem, e.top - 176, 14) == 0;
    assert e.top - 40 in e.task.area && e.top - 32 in e.task.area && e.top - 24 in e.task.area;
    assert e.top - 16 in e.task.area;
    assert e.top - 8 in e.task.area && e.top - 64 in e.task.area;
  }

  /** The words that `resume_user` reads from sp upwards as rax and as the interrupt frame. */
  predicate CloneWords(mem: Memory, sp: int, entry: Word, userStack: Word) {
    && Load(mem, sp + 112) == 0 && Load(mem, sp + 136) == entry && Load(mem, sp + 144) == 27
    && Load(mem, sp + 152) == 0x202 && Load(mem, sp + 160) == userStack && Load(mem, sp + 168) == 35
  }

  /** From there it reaches `iretq` with the given entry point, the new user stack, and rax = 0. */
  lemma CloneReachesUser(states: seq<System>, events: seq<Event>, room: nat, i: nat, j: nat, c: Cpu)
    requires Run(states, events, room)
    requires i < j < |events| && events[i].Clone? && events[j].Switch?
    requires events[j].next == |states[i].tasks| && NotResumed(events, i, j, |states[i].tasks|)
    requires UserEffect(states[j + 1].cpu, c)
    ensures states[j + 1].cpu.rip == events[i].resumeUser
    ensures c.rip == events[i].entry && c.rsp == events[i].userStack && Get(c.regs, Rax) == 0
    ensures Load(c.mem, states[j + 1].cpu.rsp + 144) == 27 && Load(c.mem, states[j + 1].cpu.rsp + 152) == 0x202
    ensures Load(c.mem, states[j + 1].cpu.rsp + 168) == 35
  {
    hide Run, Load, Get, PoppedUpper;
    RunLength(states, events, room);
    CloneStarts(states, events, room, i, j);
  }

  /** The switch to a created task leaves the words above its frame as they were at its creation. */
  lemma SwitchKeepsStack(states: seq<System>, events: seq<Event>, room: nat, i: nat, j: nat)
    requires Run(states, events, room)
    requires i < j < |events| && events[i].Clone? && events[j].Switch?
    requires events[j].next == |states[i].tasks| && NotResumed(events, i, j, |states[i].tasks|)
    ensures forall a | a in events[i].task.area && a >= events[i].top - 176 ::
              Load(states[j + 1].cpu.mem, a) == Load(states[i + 1].cpu.mem, a)
  {
    hide Run, Load, FrameAt, Kept, Separate, StackOf, SwitchEffect, Called;
    RunLength(states, events, room);
    var e, t := events[i], |states[i].tasks|;
    StepOf(states, events, room, i);
    RunLocates(states, events, room, i);
    StepOf(states, events, room, j);
    RunLocates(states, events, room, j);
    StaysOut(states, events, room, i + 1, j, t);
    var saved := SwitchFacts(states[j], t, events[j].back, room, states[j + 1]);
    forall a | a in e.task.area && a >= e.top - 176
      ensures Load(states[j + 1].cpu.mem, a) == Load(states[i + 1].cpu.mem, a)
    {
      OwnIsUntouched(states[j], t, a);
      if states[j].cpu.rsp - 56 <= a < states[j].cpu.rsp {
        StackIsTouched(states[j], a);
      }
      assert a != Cell(states[j].tasks[states[j].current]) by { AreaIsNoCell(states[j], t, a); }
    }
  }

  lemma AreaIsNoCell(s: System, t: nat, a: int)
    requires Valid(s) && t < |s.tasks| && t != s.current && a in s.tasks[t].area
    ensures a != Cell(s.tasks[s.current])
  {
    assert Owns(s.tasks[t], a) && Owns(s.tasks[s.current], Cell(s.tasks[s.current]));
  }

  /** If task t is current at i and is not at j, it was switched away from in between, and was out since. */
  lemma {:induction false} SwitchedAway(states: seq<System>, events: seq<Event>, room: nat, i: nat, j: nat, t: nat)
      returns (m: nat)
    requires Run(states, events, room) && i <= j < |states| && t < |states[i].tasks|
    requires states[i].current == t && states[j].current != t
    ensures i <= m < j && events[m].Switch? && states[m].current == t
    ensures t < |states[m].tasks| && states[m].tasks[t] == states[i].tasks[t]
    decreases j - i
  {
    hide Run, FrameAt, CloneStackAt, SwitchEffect, Called, Kept, TrapEffect, Separate;
    RunLength(states, events, room);
    RunLocates(states, events, room, i);
    StepOf(states, events, room, i);
    if events[i].Switch? {
      m := i;
    } else {
      NextKeepsValid(states[i], events[i], states[i + 1]);
      m := SwitchedAway(states, events, room, i + 1, j, t);
    }
  }

  /** The first task is the boot code: at its first resume it goes on at the stack pointer with which the boot
      code was first switched away, never on the stack that was built for it; and with the context the boot
      code gave up there, if that frame was private or nobody ran below `rsp0` in between. */
  lemma FirstTaskIsBootCode(states: seq<System>, events: seq<Event>, room: nat, i: nat, j: nat) returns (m: nat)
    requires Run(states, events, room)
    requires i < j < |events| && events[i].Create? && events[j].Switch? && states[i].tasks == []
    requires events[j].next == 0 && NotResumed(events, i, j, 0)
    ensures i < m < j && events[m].Switch? && states[m].current == 0 < |states[m].on|
    ensures Load(states[m + 1].cpu.mem, Cell(events[i].task)) == states[m].cpu.rsp - 56 != events[i].top - 56
    ensures ResumedAs(states[j + 1]).rsp == states[m].cpu.rsp != events[i].top
    ensures Private(states[m]) || (forall n | m < n <= j :: OffEntry(states[n])) ==>
              ResumedAs(states[j + 1]) == Given(states[m], events[m].back)
  {
    hide Run, Load, Called, SwitchEffect, FrameAt, Separate, Kept, Private, OffEntry;
    RunLength(states, events, room);
    StepOf(states, events, room, i);
    StepOf(states, events, room, j);
    RunLocates(states, events, room, i + 1);
    RunLocates(states, events, room, j);
    m := SwitchedAway(states, events, room, i + 1, j, 0);
    StepOf(states, events, room, m);
    RunLocates(states, events, room, m);
    SameEntry(states, events, room, i, m);
    assert StackOf(states[m], 0, states[m].cpu.rsp - 8);
    assert states[m].cpu.rsp - 8 in states[m].boot;
    OutStays(states, events, room, m, j, 0);
    var saved := SwitchFacts(states[j], 0, events[j].back, room, states[j + 1]);
    if Private(states[m]) || forall n | m < n <= j :: OffEntry(states[n]) {
      ResumeFindsContext(states, events, room, m, j);
    }
  }

  /** A created task starts at its entry point if and only if a task existed at its creation. */
  lemma FirstResume(states: seq<System>, events: seq<Event>, room: nat, i: nat, j: nat)
    requires Run(states, events, room)
    requires i < j < |events| && events[i].Create? && events[j].Switch?
    requires events[j].next == |states[i].tasks| && NotResumed(events, i, j, |states[i].tasks|)
    ensures ResumedAs(states[j + 1]) == Context(0, 0, 0, 0, 0, 0, events[i].top, events[i].entry)
       <==> states[i].tasks != []
  {
    hide ContextOf, NotResumed;
    if states[i].tasks != [] {
      FirstRunStartsAtEntry(states, events, room, i, j);
    } else {
      var m := FirstTaskIsBootCode(states, events, room, i, j);
    }
  }

  /** The kernel's one creation of this kind passes entry point 0 while there is no task: the stack built for it
      is never used, and if the boot code's frame is not overwritten the task goes on where that was switched
      away. */
  lemma NullEntryIsNeverReached(states: seq<System>, events: seq<Event>, room: nat, task: Task, top: int, j: nat)
      returns (m: nat)
    requires Run(states, events, room) && 0 < j < |events|
    requires events[0] == Create(task, top, 0) && events[j].Switch? && events[j].next == 0
    requires NotResumed(events, 0, j, 0)
    ensures ResumedAs(states[j + 1]) != Context(0, 0, 0, 0, 0, 0, top, 0)
    ensures 0 < m < j && events[m].Switch? && states[j + 1].cpu.rsp == states[m].cpu.rsp
    ensures states[m].current < |states[m].on|
    ensures Private(states[m]) || (forall n | m < n <= j :: OffEntry(states[n])) ==>
              states[j + 1].cpu.rip == events[m].back
  {
    hide Private, OffEntry;
    m := FirstTaskIsBootCode(states, events, room, 0, j);
  }
}
