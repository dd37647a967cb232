/** Where the stacks of tasks come from: task structures, kernel stacks and user stacks are blocks of malloc, and
    exactly when the pages behind them are contiguous do they hold what the creation of tasks puts there. */
module Stacks {
  import opened ContextSwitch
  import opened ContextSwitchRuns
  import opened KernelTasks
  import Malloc

  /** The sizes that creation asks for: a task structure, a stack, and the kernel stack of a clone. */
  const STRUCT_SIZE := 48
  const STACK_SIZE := 0x2000
  const CLONE_STACK_SIZE := 0x128

  /** What the allocator has given out: its pages, their roles, and the requests served. */
  datatype Given = Given(pages: seq<int>, roles: seq<Malloc.Role>, grants: seq<Malloc.Grant>)

  ghost predicate GivenOk(h: Given) {
    |h.roles| <= |h.pages| && Malloc.RolesOk(h.pages, h.roles) && Malloc.GrantsOk(h.pages, h.roles, h.grants)
  }

  /** The addresses of the block behind request k. */
  ghost function Block(h: Given, k: nat): iset<int>
    requires k < |h.grants|
  {
    iset a | Malloc.InGrant(h.roles, h.grants[k], a)
  }

  /** The block has n bytes from its start on. */
  ghost predicate Holds(h: Given, k: nat, n: nat)
    requires k < |h.grants|
  {
    forall a | h.grants[k].address <= a < h.grants[k].address + n :: a in Block(h, k)
  }

  /** Whether the n pages from the block's header on follow one another. */
  ghost predicate OnContiguousPages(h: Given, k: nat, n: nat)
    requires k < |h.grants|
  {
    Malloc.AreContiguous(h.pages, h.grants[k].id.page, n)
  }

  lemma Classes()
    ensures Malloc.ClassOf(STRUCT_SIZE) < 9 && Malloc.ClassOf(CLONE_STACK_SIZE) < 9
    ensures Malloc.ClassOf(STACK_SIZE) >= 9 && Malloc.PagesNeeded(STACK_SIZE) == 3
  {
    assert Malloc.BitLength(6) == 3;
    assert Malloc.BitLength(4) == 3 && Malloc.BitLength(37) == 6;
    assert Malloc.BitLength(4) == 3 && Malloc.BitLength(64) == 7 && Malloc.BitLength(1024) == 11;
  }

  /** A stack's block is large enough for the stack if and only if the three pages it spans are contiguous; and
      then the 2048 bytes behind the stack are the block's too. */
  lemma StackHolds(h: Given, k: nat)
    requires GivenOk(h) && k < |h.grants| && h.grants[k].size == STACK_SIZE
    ensures OnContiguousPages(h, k, 3) ==> Holds(h, k, STACK_SIZE + COPIED)
    ensures !OnContiguousPages(h, k, 3) ==> h.grants[k].address + STACK_SIZE - 1 !in Block(h, k)
  {
    hide Malloc.ClassOf, Malloc.PagesNeeded, Malloc.Stride, Malloc.Offset, Malloc.AreContiguous, Malloc.Count,
         Malloc.RolesOk;
    Classes();
    var g := h.grants[k];
    assert Malloc.GrantOk(h.pages, h.roles, g);
    if g.id.SmallBlock? {
      SmallCapacity(h.roles, g.id);
    }
  }

  lemma SmallCapacity(roles: seq<Malloc.Role>, b: Malloc.BlockId)
    requires Malloc.IsBlock(roles, b) && b.SmallBlock?
    ensures Malloc.Capacity(roles, b) <= 2048
  {
    hide Malloc.Stride, Malloc.Offset;
    Malloc.Values(roles[b.page].l, 0);
  }

  /** The block of a small request always holds it. */
  lemma SmallHolds(h: Given, k: nat)
    requires GivenOk(h) && k < |h.grants| && h.grants[k].size in {STRUCT_SIZE, CLONE_STACK_SIZE}
    ensures Holds(h, k, h.grants[k].size)
  {
    hide Malloc.ClassOf, Malloc.Stride, Malloc.Offset, Malloc.AreContiguous, Malloc.Count, Malloc.RolesOk;
    Classes();
    assert Malloc.GrantOk(h.pages, h.roles, h.grants[k]);
  }

  /** Blocks of different requests are disjoint. */
  lemma BlocksApart(h: Given, j: nat, k: nat, a: int)
    requires GivenOk(h) && j < |h.grants| && k < |h.grants| && a in Block(h, j) && a in Block(h, k)
    ensures j == k
  {
    hide Malloc.RolesOk, Malloc.GrantsOk, Malloc.InGrant;
    if j != k {
      Malloc.GrantsDisjoint(h.pages, h.roles, h.grants, j, k, a);
    }
  }

  /** A structure at this address and a stack, from two requests. */
  ghost predicate Requested(h: Given, address: int, structure: nat, stack: nat) {
    && structure < |h.grants| && stack < |h.grants| && structure != stack
    && h.grants[structure].size == STRUCT_SIZE && address == h.grants[structure].address
  }

  /** Task t's structure and stack are the blocks of these requests. */
  ghost predicate MadeFrom(h: Given, t: Task, structure: nat, stack: nat) {
    Requested(h, t.address, structure, stack) && t.area == Block(h, stack)
  }

  /** The same for task i of the list, where the first has the boot stack in place of its own. */
  ghost predicate Listed(h: Given, s: System, i: nat, structure: nat, stack: nat)
    requires i < |s.tasks|
  {
    && Requested(h, s.tasks[i].address, structure, stack)
    && s.tasks[i].area == if i == 0 then s.boot else Block(h, stack)
  }

  ghost predicate Distinct(structures: seq<nat>, stacks: seq<nat>) {
    && (forall i, j | 0 <= i < |structures| && 0 <= j < |stacks| :: structures[i] != stacks[j])
    && (forall i, j | 0 <= i < j < |structures| :: structures[i] != structures[j])
    && (forall i, j | 0 <= i < j < |stacks| :: stacks[i] != stacks[j])
  }

  lemma DistinctGrows(structures: seq<nat>, stacks: seq<nat>, structure: nat, stack: nat)
    requires Distinct(structures, stacks) && structure != stack
    requires structure !in structures && structure !in stacks && stack !in structures && stack !in stacks
    ensures Distinct(structures + [structure], stacks + [stack])
  {
  }

  /** All tasks are made from requests of their own; the first one's stack is the boot stack, outside the heap. */
  ghost predicate FromHeap(h: Given, s: System, structures: seq<nat>, stacks: seq<nat>) {
    && |structures| == |stacks| == |s.tasks|
    && Distinct(structures, stacks)
    && (forall k, a | 0 <= k < |h.grants| && a in Block(h, k) :: a !in s.boot)
    && (forall i | 0 <= i < |stacks| :: Listed(h, s, i, structures[i], stacks[i]))
  }

  /** What task i owns lies in the boot stack or in its own two blocks. */
  lemma OwnedBlock(h: Given, s: System, structures: seq<nat>, stacks: seq<nat>, i: nat, a: int)
    requires GivenOk(h) && FromHeap(h, s, structures, stacks) && i < |s.tasks| && Owns(s.tasks[i], a)
    ensures structures[i] < |h.grants| && stacks[i] < |h.grants|
    ensures a == Cell(s.tasks[i]) ==> a in Block(h, structures[i])
    ensures a != Cell(s.tasks[i]) ==> if i == 0 then a in s.boot else a in Block(h, stacks[i])
  {
    hide Block, GivenOk;
    assert Listed(h, s, i, structures[i], stacks[i]);
    SmallHolds(h, structures[i]);
    assert h.grants[structures[i]].address + 8 in Block(h, structures[i]);
  }

  /** A new task whose blocks no other task has, and whose structure is apart from its stack. */
  ghost predicate Unused(h: Given, structures: seq<nat>, stacks: seq<nat>, k: nat) {
    k < |h.grants| && k !in structures && k !in stacks
  }

  /** A task from unused blocks shares no word with the others. */
  lemma NewIsSeparate(h: Given, s: System, structures: seq<nat>, stacks: seq<nat>, task: Task, structure: nat,
                      stack: nat)
    requires GivenOk(h) && FromHeap(h, s, structures, stacks) && MadeFrom(h, task, structure, stack)
    requires Unused(h, structures, stacks, structure) && Unused(h, structures, stacks, stack)
    ensures FromHeap(h, s.(tasks := s.tasks + [Entered(s, task)]), structures + [structure], stacks + [stack])
    ensures Separate(s.tasks + [Entered(s, task)]) && Cell(task) !in task.area
  {
    hide GivenOk, Block;
    var s' := s.(tasks := s.tasks + [Entered(s, task)]);
    var structures', stacks' := structures + [structure], stacks + [stack];
    StillFromHeap(h, s, structures, stacks, task, structure, stack);
    SmallHolds(h, structure);
    if Cell(task) in task.area {
      BlocksApart(h, structure, stack, Cell(task));
    }
    forall i, j, a | 0 <= i < |s'.tasks| && 0 <= j < |s'.tasks| && Owns(s'.tasks[i], a) && Owns(s'.tasks[j], a)
      ensures i == j
    {
      OwnersAgree(h, s', structures', stacks', i, j, a);
    }
    forall i | 0 <= i < |s'.tasks| ensures Cell(s'.tasks[i]) !in s'.tasks[i].area {
      CellOutside(h, s', structures', stacks', i);
    }
  }

  lemma StillFromHeap(h: Given, s: System, structures: seq<nat>, stacks: seq<nat>, task: Task, structure: nat,
                      stack: nat)
    requires FromHeap(h, s, structures, stacks) && MadeFrom(h, task, structure, stack)
    requires Unused(h, structures, stacks, structure) && Unused(h, structures, stacks, stack)
    ensures FromHeap(h, s.(tasks := s.tasks + [Entered(s, task)]), structures + [structure], stacks + [stack])
  {
    hide Block, Distinct;
    var s' := s.(tasks := s.tasks + [Entered(s, task)]);
    var structures', stacks' := structures + [structure], stacks + [stack];
    DistinctGrows(structures, stacks, structure, stack);
    forall i | 0 <= i < |stacks'| ensures Listed(h, s', i, structures'[i], stacks'[i]) {
      if i < |stacks| {
        assert Listed(h, s, i, structures[i], stacks[i]);
      }
    }
  }

  lemma OwnersAgree(h: Given, s: System, structures: seq<nat>, stacks: seq<nat>, i: nat, j: nat, a: int)
    requires GivenOk(h) && FromHeap(h, s, structures, stacks) && i < |s.tasks| && j < |s.tasks|
    requires Owns(s.tasks[i], a) && Owns(s.tasks[j], a)
    ensures i == j
  {
    hide GivenOk, Block, MadeFrom;
    OwnedBlock(h, s, structures, stacks, i, a);
    OwnedBlock(h, s, structures, stacks, j, a);
    forall x, y | x in {structures[i], stacks[i]} && y in {structures[j], stacks[j]} && a in Block(h, x) * Block(h, y)
      ensures x == y
    {
      BlocksApart(h, x, y, a);
    }
  }

  lemma CellOutside(h: Given, s: System, structures: seq<nat>, stacks: seq<nat>, i: nat)
    requires GivenOk(h) && FromHeap(h, s, structures, stacks) && i < |s.tasks|
    ensures Cell(s.tasks[i]) !in s.tasks[i].area
  {
    hide GivenOk, Block;
    var cell := Cell(s.tasks[i]);
    assert Listed(h, s, i, structures[i], stacks[i]);
    OwnedBlock(h, s, structures, stacks, i, cell);
    if i > 0 && cell in Block(h, stacks[i]) {
      BlocksApart(h, structures[i], stacks[i], cell);
    }
  }

  /** KernelInitializeProcess with a stack from malloc does what its step requires if and only if the three pages
      behind the stack are contiguous. */
  lemma StackMayCreate(h: Given, s: System, structures: seq<nat>, stacks: seq<nat>, task: Task, structure: nat,
                       stack: nat, room: nat)
    requires GivenOk(h) && FromHeap(h, s, structures, stacks) && MadeFrom(h, task, structure, stack)
    requires Unused(h, structures, stacks, structure) && Unused(h, structures, stacks, stack)
    requires h.grants[stack].size == STACK_SIZE && room <= STACK_SIZE - 56
    ensures MayCreate(s, task, h.grants[stack].address + STACK_SIZE, 56, room) <==> OnContiguousPages(h, stack, 3)
  {
    hide GivenOk, OnContiguousPages, Separate;
    NewIsSeparate(h, s, structures, stacks, task, structure, stack);
    StackHolds(h, stack);
  }

  /** The kernel stack of a clone needs no contiguous pages; it leaves 64 bytes for `unlock`. */
  lemma CloneMayCreate(h: Given, s: System, structures: seq<nat>, stacks: seq<nat>, task: Task, structure: nat,
                       stack: nat, room: nat)
    requires GivenOk(h) && FromHeap(h, s, structures, stacks) && MadeFrom(h, task, structure, stack)
    requires Unused(h, structures, stacks, structure) && Unused(h, structures, stacks, stack)
    requires h.grants[stack].size == CLONE_STACK_SIZE && s.tasks != []
    ensures MayCreate(s, task, h.grants[stack].address + CLONE_STACK_SIZE, 232, room) <==> room <= 64
  {
    hide GivenOk, Separate;
    NewIsSeparate(h, s, structures, stacks, task, structure, stack);
    SmallHolds(h, stack);
    assert h.grants[stack].address - 1 !in Block(h, stack);
  }

  /** The clone's user stack is written from the end of its block on; on three contiguous pages that is memory of
      nobody else's. */
  lemma CopyIsUnowned(h: Given, s: System, structures: seq<nat>, stacks: seq<nat>, task: Task, structure: nat,
                      stack: nat, user: nat)
    requires GivenOk(h) && FromHeap(h, s, structures, stacks) && MadeFrom(h, task, structure, stack)
    requires Unused(h, structures, stacks, structure) && Unused(h, structures, stacks, stack)
    requires Unused(h, structures, stacks, user) && user != structure && user != stack
    requires h.grants[user].size == STACK_SIZE && OnContiguousPages(h, user, 3)
    ensures var lo := h.grants[user].address + STACK_SIZE; Unowned(s, task, lo, lo + COPIED)
  {
    hide GivenOk, OnContiguousPages, Block;
    StackHolds(h, user);
    SmallHolds(h, structure);
    var lo := h.grants[user].address + STACK_SIZE;
    forall a | lo <= a < lo + COPIED ensures !Owns(task, a) {
      assert a in Block(h, user) && Cell(task) in Block(h, structure);
      if Owns(task, a) {
        BlocksApart(h, user, if a == Cell(task) then structure else stack, a);
      }
    }
    forall t, a | 0 <= t < |s.tasks| && lo <= a < lo + COPIED ensures !Owns(s.tasks[t], a) {
      assert a in Block(h, user);
      if Owns(s.tasks[t], a) {
        OwnedBlock(h, s, structures, stacks, t, a);
        assert structures[t] in structures && stacks[t] in stacks;
        if t != 0 || a == Cell(s.tasks[t]) {
          BlocksApart(h, user, if a == Cell(s.tasks[t]) then structures[t] else stacks[t], a);
        }
      }
    }
  }
}
