/** PCI enumeration: the depth-first walk over buses registers one numbered object per function in the
    namespace, and the search finds them again by printing the numbers and resolving the names. */
module Pci {
  import opened Prelude
  import opened CString
  import opened ObjectDirectory
  import opened NameLaws

  /** A word of configuration space by bus, slot, function and offset. */
  type Config = (nat, nat, nat, nat) -> nat

  datatype Function = Function(bus: nat, slot: nat, func: nat)

  /** What is kept about a registered function; `secondary` is the bus behind a bridge. */
  datatype Info = Info(fn: Function, bridge: bool, classCode: nat, subclass: nat, headerType: nat, secondary: nat)

  predicate Present(c: Config, b: nat, s: nat, f: nat) { c(b, s, f, 0) != 0xFFFF }

  function HeaderType(c: Config, b: nat, s: nat, f: nat): nat { c(b, s, f, 0xE) % 256 }

  /** Whether a slot holds a bridge is read from its function 0. */
  predicate IsBridge(c: Config, b: nat, s: nat) { HeaderType(c, b, s, 0) == 1 }

  predicate MultiFunction(c: Config, b: nat, s: nat) { HeaderType(c, b, s, 0) / 128 % 2 == 1 }

  function Secondary(c: Config, b: nat, s: nat): nat { c(b, s, 0, 0x1C) / 256 % 256 }

  /** The function whose registers describe fn: a bridge is described by function 0 of its slot, any other function by
      itself. */
  function Describing(c: Config, fn: Function): nat {
    if c(fn.bus, fn.slot, 0, 0xE) % 0x100 == 1 then 0 else fn.func
  }

  /** What is kept agrees with configuration space: the class is the high byte of the word at 0xA and the subclass the
      low one, the header type is the low byte of the word at 0xE, the bus behind a bridge the high one at 0x1C. */
  ghost predicate Truthful(c: Config, i: Info) {
    var f := Describing(c, i.fn);
    && (i.bridge <==> c(i.fn.bus, i.fn.slot, 0, 0xE) % 0x100 == 1)
    && HasClass(c, i.fn, i.classCode, i.subclass)
    && (exists high :: c(i.fn.bus, i.fn.slot, f, 0xE) == 0x100 * high + i.headerType) && i.headerType < 0x100
    && IsHighByte(c(i.fn.bus, i.fn.slot, 0, 0x1C), i.secondary)
  }

  /** The word at 0xA of the describing function is made of these two bytes. */
  predicate HasClass(c: Config, fn: Function, classCode: nat, subclass: nat) {
    && classCode < 0x100 && subclass < 0x100
    && c(fn.bus, fn.slot, Describing(c, fn), 0xA) % 0x1_0000 == 0x100 * classCode + subclass
  }

  ghost predicate IsHighByte(word: nat, high: nat) {
    high < 0x100 && 0x100 * high <= word % 0x1_0000 < 0x100 * high + 0x100
  }

  /** What the bus walk goes by, in bytes of configuration words. */
  lemma HeaderBytes(c: Config, b: nat, s: nat, f: nat)
    ensures HeaderType(c, b, s, f) < 0x100 && exists high :: c(b, s, f, 0xE) == 0x100 * high + HeaderType(c, b, s, f)
    ensures IsHighByte(c(b, s, 0, 0x1C), Secondary(c, b, s))
    ensures MultiFunction(c, b, s) <==> c(b, s, 0, 0xE) % 0x100 >= 0x80
    ensures IsBridge(c, b, s) <==> c(b, s, 0, 0xE) % 0x100 == 1
  {
    assert c(b, s, f, 0xE) == 0x100 * (c(b, s, f, 0xE) / 0x100) + HeaderType(c, b, s, f);
  }

  /** A function is found on its bus exactly if function 0 of its slot has a vendor and, beyond function 0, bit 7 of
      the header type is set and the function has a vendor. */
  lemma AnswersWords(c: Config, fn: Function)
    ensures Answers(c, fn)
       <==> fn.slot < 32 && fn.func < 8 && c(fn.bus, fn.slot, 0, 0) != 0xFFFF
            && (fn.func == 0
                || (c(fn.bus, fn.slot, 0, 0xE) % 0x100 >= 0x80 && c(fn.bus, fn.slot, fn.func, 0) != 0xFFFF))
  {
    HeaderBytes(c, fn.bus, fn.slot, fn.func);
  }

  // ----- Configuration space in bytes -----

  type ConfigByte = n: int | 0 <= n < 0x100

  /** The bytes of configuration space by bus, slot, function and offset. */
  type Space = (nat, nat, nat, nat) -> ConfigByte

  /** The register that the data port shows for an offset, lowest byte first. */
  function Register(x: Space, b: nat, s: nat, f: nat, offset: nat): nat {
    x(b, s, f, offset) + 0x100 * x(b, s, f, offset + 1) + 0x1_0000 * x(b, s, f, offset + 2)
    + 0x100_0000 * x(b, s, f, offset + 3)
  }

  /** KernelReadPciConfigWord: the register of a multiple of 4, shifted by 16 bits if bit 1 of the offset is set. */
  function ReadConfigWord(x: Space): Config {
    (b: nat, s: nat, f: nat, offset: nat) =>
      if offset / 2 % 2 == 1 then Register(x, b, s, f, offset / 4 * 4) / 0x1_0000 % 0x1_0000
      else Register(x, b, s, f, offset / 4 * 4) % 0x1_0000
  }

  lemma Halves(x: Space, b: nat, s: nat, f: nat, o: nat)
    ensures Register(x, b, s, f, o) % 0x1_0000 == x(b, s, f, o) + 0x100 * x(b, s, f, o + 1)
    ensures Register(x, b, s, f, o) / 0x1_0000 % 0x1_0000 == x(b, s, f, o + 2) + 0x100 * x(b, s, f, o + 3)
  {
    var low, high := x(b, s, f, o) + 0x100 * x(b, s, f, o + 1), x(b, s, f, o + 2) + 0x100 * x(b, s, f, o + 3);
    assert Register(x, b, s, f, o) == low + 0x1_0000 * high;
  }

  lemma EvenOffsets(offset: nat)
    requires offset % 2 == 0
    ensures offset / 4 * 4 == if offset / 2 % 2 == 1 then offset - 2 else offset
  {
  }

  /** At even offsets that is the two bytes there. */
  lemma WordIsBytes(x: Space, b: nat, s: nat, f: nat, offset: nat)
    requires offset % 2 == 0
    ensures ReadConfigWord(x)(b, s, f, offset) == x(b, s, f, offset) + 0x100 * x(b, s, f, offset + 1)
  {
    hide Register;
    EvenOffsets(offset);
    Halves(x, b, s, f, offset / 4 * 4);
  }

  /** A function has a class exactly if the byte at 0xB is the class and the one at 0xA the subclass. */
  lemma ClassIsBytes(x: Space, fn: Function, classCode: nat, subclass: nat)
    ensures var f := if x(fn.bus, fn.slot, 0, 0xE) == 1 then 0 else fn.func;
            HasClass(ReadConfigWord(x), fn, classCode, subclass) <==>
              x(fn.bus, fn.slot, f, 0xB) == classCode && x(fn.bus, fn.slot, f, 0xA) == subclass
  {
    hide ReadConfigWord;
    WordIsBytes(x, fn.bus, fn.slot, 0, 0xE);
    WordIsBytes(x, fn.bus, fn.slot, Describing(ReadConfigWord(x), fn), 0xA);
  }

  /** Going through a bridge lowers the rank, so no bus leads back to itself. */
  ghost predicate Acyclic(c: Config, rank: nat -> nat) {
    forall b, s | s < 32 && Present(c, b, s, 0) && IsBridge(c, b, s) :: rank(Secondary(c, b, s)) < rank(b)
  }

  // ----- The walk -----

  function LaterFunctions(c: Config, b: nat, s: nat, f: nat): seq<Function>
    decreases 8 - f
  {
    if f >= 8 then []
    else (if Present(c, b, s, f) then [Function(b, s, f)] else []) + LaterFunctions(c, b, s, f + 1)
  }

  ghost function BusWalk(c: Config, rank: nat -> nat, b: nat, s: nat): seq<Function>
    requires Acyclic(c, rank)
    decreases rank(b), 33 - s, 0
  {
    if s >= 32 then [] else SlotWalk(c, rank, b, s) + BusWalk(c, rank, b, s + 1)
  }

  /** Function 0, then the bus behind it if it is a bridge, then the other functions of the slot. */
  ghost function SlotWalk(c: Config, rank: nat -> nat, b: nat, s: nat): seq<Function>
    requires Acyclic(c, rank) && s < 32
    decreases rank(b), 32 - s, 1
  {
    if !Present(c, b, s, 0) then []
    else [Function(b, s, 0)]
         + (if IsBridge(c, b, s) then BusWalk(c, rank, Secondary(c, b, s), 0) else [])
         + (if MultiFunction(c, b, s) then LaterFunctions(c, b, s, 1) else [])
  }

  // ----- What the walk reaches -----

  predicate Bridge(c: Config, b: nat, s: nat) { s < 32 && Present(c, b, s, 0) && IsBridge(c, b, s) }

  /** Bus x lies at or behind bus b. */
  ghost predicate Reaches(c: Config, rank: nat -> nat, b: nat, x: nat)
    requires Acyclic(c, rank)
    decreases rank(b)
  {
    b == x || exists s | Bridge(c, b, s) :: Reaches(c, rank, Secondary(c, b, s), x)
  }

  lemma ReachesUnfolds(c: Config, rank: nat -> nat, b: nat, x: nat)
    requires Acyclic(c, rank)
    ensures Reaches(c, rank, b, x)
       <==> b == x || exists s | Bridge(c, b, s) :: Reaches(c, rank, Secondary(c, b, s), x)
  {
  }

  /** What a scan of the function's own bus finds: only a multi-function slot is asked beyond function 0. */
  predicate Answers(c: Config, fn: Function) {
    && fn.slot < 32 && fn.func < 8 && Present(c, fn.bus, fn.slot, 0)
    && (fn.func == 0 || (MultiFunction(c, fn.bus, fn.slot) && Present(c, fn.bus, fn.slot, fn.func)))
  }

  lemma {:induction false} InLaterFunctions(c: Config, b: nat, s: nat, f: nat, fn: Function)
    ensures fn in LaterFunctions(c, b, s, f)
       <==> fn.bus == b && fn.slot == s && f <= fn.func < 8 && Present(c, b, s, fn.func)
    decreases 8 - f
  {
    if f < 8 {
      InLaterFunctions(c, b, s, f + 1, fn);
    }
  }

  /** From slot s on, the walk visits the answering functions of those slots and of the buses behind their
      bridges, and nothing else. */
  lemma {:induction false} InBusWalk(c: Config, rank: nat -> nat, b: nat, s: nat, fn: Function)
    requires Acyclic(c, rank)
    ensures fn in BusWalk(c, rank, b, s)
       <==> Answers(c, fn) && ((fn.bus == b && fn.slot >= s)
                               || exists t | t >= s && Bridge(c, b, t) :: Reaches(c, rank, Secondary(c, b, t), fn.bus))
    decreases rank(b), 33 - s, 0
  {
    if s < 32 {
      InSlotWalk(c, rank, b, s, fn);
      InBusWalk(c, rank, b, s + 1, fn);
    }
  }

  lemma {:induction false} InSlotWalk(c: Config, rank: nat -> nat, b: nat, s: nat, fn: Function)
    requires Acyclic(c, rank) && s < 32
    ensures fn in SlotWalk(c, rank, b, s)
       <==> Answers(c, fn) && ((fn.bus == b && fn.slot == s)
                               || (Bridge(c, b, s) && Reaches(c, rank, Secondary(c, b, s), fn.bus)))
    decreases rank(b), 32 - s, 1
  {
    InLaterFunctions(c, b, s, 1, fn);
    if Bridge(c, b, s) {
      var x := Secondary(c, b, s);
      InBusWalk(c, rank, x, 0, fn);
      ReachesUnfolds(c, rank, x, fn.bus);
    }
  }

  /** The whole walk finds a function exactly if it answers on a bus at or behind the first one. */
  lemma WalkFindsReachable(c: Config, rank: nat -> nat, b: nat, fn: Function)
    requires Acyclic(c, rank)
    ensures fn in BusWalk(c, rank, b, 0) <==> Answers(c, fn) && Reaches(c, rank, b, fn.bus)
  {
    InBusWalk(c, rank, b, 0, fn);
    ReachesUnfolds(c, rank, b, fn.bus);
  }

  /** No bus lies behind two bridges. */
  ghost predicate Tree(c: Config) {
    forall b, s, b', s' | Bridge(c, b, s) && Bridge(c, b', s') && Secondary(c, b, s) == Secondary(c, b', s') ::
      b == b' && s == s'
  }

  lemma {:induction false} ReachesLowersRank(c: Config, rank: nat -> nat, b: nat, x: nat)
    requires Acyclic(c, rank) && Reaches(c, rank, b, x)
    ensures b == x || rank(x) < rank(b)
    decreases rank(b)
  {
    if b != x {
      var s :| Bridge(c, b, s) && Reaches(c, rank, Secondary(c, b, s), x);
      ReachesLowersRank(c, rank, Secondary(c, b, s), x);
    }
  }

  /** In a tree the way to a bus passes the bridge before it. */
  lemma {:induction false} ThroughParent(c: Config, rank: nat -> nat, y: nat, b: nat, s: nat)
    requires Acyclic(c, rank) && Tree(c) && Bridge(c, b, s)
    requires Reaches(c, rank, y, Secondary(c, b, s)) && y != Secondary(c, b, s)
    ensures Reaches(c, rank, y, b)
    decreases rank(y)
  {
    var x := Secondary(c, b, s);
    var t :| Bridge(c, y, t) && Reaches(c, rank, Secondary(c, y, t), x);
    if Secondary(c, y, t) != x {
      ThroughParent(c, rank, Secondary(c, y, t), b, s);
    }
  }

  lemma {:induction false} LastBridge(c: Config, rank: nat -> nat, y: nat, x: nat) returns (b: nat, s: nat)
    requires Acyclic(c, rank) && Reaches(c, rank, y, x) && y != x
    ensures Bridge(c, b, s) && Secondary(c, b, s) == x && Reaches(c, rank, y, b)
    decreases rank(y)
  {
    s :| Bridge(c, y, s) && Reaches(c, rank, Secondary(c, y, s), x);
    b := y;
    if Secondary(c, y, s) != x {
      var t := s;
      b, s := LastBridge(c, rank, Secondary(c, y, t), x);
      assert Bridge(c, y, t);
    }
  }

  lemma {:induction false} Comparable(c: Config, rank: nat -> nat, y: nat, z: nat, x: nat)
    requires Acyclic(c, rank) && Tree(c) && Reaches(c, rank, y, x) && Reaches(c, rank, z, x)
    ensures Reaches(c, rank, y, z) || Reaches(c, rank, z, y)
    decreases rank(y) - rank(x)
  {
    if y != x && z != x {
      var b, s := LastBridge(c, rank, y, x);
      ThroughParent(c, rank, z, b, s);
      ReachesLowersRank(c, rank, y, b);
      Comparable(c, rank, y, z, b);
    }
  }

  /** Two slots of one bus lead to disjoint parts of the tree. */
  lemma BranchesDisjoint(c: Config, rank: nat -> nat, b: nat, s: nat, t: nat, x: nat)
    requires Acyclic(c, rank) && Tree(c) && Bridge(c, b, s) && Bridge(c, b, t) && s != t
    requires Reaches(c, rank, Secondary(c, b, s), x)
    ensures !Reaches(c, rank, Secondary(c, b, t), x)
  {
    var y, z := Secondary(c, b, s), Secondary(c, b, t);
    if Reaches(c, rank, z, x) {
      Comparable(c, rank, y, z, x);
      var top, u := if Reaches(c, rank, y, z) then y else z, if Reaches(c, rank, y, z) then t else s;
      ThroughParent(c, rank, top, b, u);
      ReachesLowersRank(c, rank, top, b);
      assert false;
    }
  }

  lemma {:induction false} LaterOnce(c: Config, b: nat, s: nat, f: nat)
    ensures NoDuplicates(LaterFunctions(c, b, s, f))
    decreases 8 - f
  {
    if f < 8 {
      LaterOnce(c, b, s, f + 1);
      InLaterFunctions(c, b, s, f + 1, Function(b, s, f));
      NoDuplicatesJoin(if Present(c, b, s, f) then [Function(b, s, f)] else [], LaterFunctions(c, b, s, f + 1));
    }
  }

  /** On a tree of buses no function is visited twice. */
  lemma {:induction false} WalkVisitsOnce(c: Config, rank: nat -> nat, b: nat, s: nat)
    requires Acyclic(c, rank) && Tree(c)
    ensures NoDuplicates(BusWalk(c, rank, b, s))
    decreases rank(b), 33 - s, 0
  {
    hide NoDuplicates, Reaches, SlotWalk, Answers, Present, IsBridge, MultiFunction;
    if s < 32 {
      SlotOnce(c, rank, b, s);
      WalkVisitsOnce(c, rank, b, s + 1);
      forall fn | fn in SlotWalk(c, rank, b, s) ensures fn !in BusWalk(c, rank, b, s + 1) {
        SlotsApart(c, rank, b, s, fn);
      }
      NoDuplicatesJoin(SlotWalk(c, rank, b, s), BusWalk(c, rank, b, s + 1));
    } else {
      ShortHasNoDuplicates<Function>([]);
    }
  }

  lemma SlotsApart(c: Config, rank: nat -> nat, b: nat, s: nat, fn: Function)
    requires Acyclic(c, rank) && Tree(c) && s < 32 && fn in SlotWalk(c, rank, b, s)
    ensures fn !in BusWalk(c, rank, b, s + 1)
  {
    InSlotWalk(c, rank, b, s, fn);
    InBusWalk(c, rank, b, s + 1, fn);
    if fn in BusWalk(c, rank, b, s + 1) {
      if fn.bus == b && fn.slot == s {
        var t :| t >= s + 1 && Bridge(c, b, t) && Reaches(c, rank, Secondary(c, b, t), fn.bus);
        ReachesLowersRank(c, rank, Secondary(c, b, t), b);
        assert false;
      } else {
        if fn.bus != b {
          var t :| t >= s + 1 && Bridge(c, b, t) && Reaches(c, rank, Secondary(c, b, t), fn.bus);
          BranchesDisjoint(c, rank, b, s, t, fn.bus);
        } else {
          ReachesLowersRank(c, rank, Secondary(c, b, s), b);
        }
        assert false;
      }
    }
  }

  lemma {:induction false} SlotOnce(c: Config, rank: nat -> nat, b: nat, s: nat)
    requires Acyclic(c, rank) && Tree(c) && s < 32
    ensures NoDuplicates(SlotWalk(c, rank, b, s))
    decreases rank(b), 32 - s, 1
  {
    hide NoDuplicates, Reaches, BusWalk, LaterFunctions, Answers, Present, IsBridge, MultiFunction;
    ShortHasNoDuplicates<Function>([]);
    var first := Function(b, s, 0);
    var behind := if IsBridge(c, b, s) then BusWalk(c, rank, Secondary(c, b, s), 0) else [];
    var later := if MultiFunction(c, b, s) then LaterFunctions(c, b, s, 1) else [];
    if Present(c, b, s, 0) {
      if IsBridge(c, b, s) {
        BehindOnce(c, rank, b, s);
      }
      LaterOnce(c, b, s, 1);
      InLaterFunctions(c, b, s, 1, first);
      BridgeIsSingle(c, b, s);
      ShortHasNoDuplicates([first]);
      NoDuplicatesJoin([first], behind);
      NoDuplicatesJoin([first] + behind, later);
      assert SlotWalk(c, rank, b, s) == [first] + behind + later;
    }
  }

  /** Header type 1 leaves the multi-function bit clear. */
  lemma BridgeIsSingle(c: Config, b: nat, s: nat)
    ensures !(IsBridge(c, b, s) && MultiFunction(c, b, s))
  {
  }

  lemma {:induction false} BehindOnce(c: Config, rank: nat -> nat, b: nat, s: nat)
    requires Acyclic(c, rank) && Tree(c) && Bridge(c, b, s)
    ensures NoDuplicates(BusWalk(c, rank, Secondary(c, b, s), 0))
    ensures Function(b, s, 0) !in BusWalk(c, rank, Secondary(c, b, s), 0)
    decreases rank(b), 32 - s, 0
  {
    hide NoDuplicates, Reaches, BusWalk;
    var x := Secondary(c, b, s);
    WalkVisitsOnce(c, rank, x, 0);
    WalkFindsReachable(c, rank, x, Function(b, s, 0));
    if Reaches(c, rank, x, b) {
      ReachesLowersRank(c, rank, x, b);
      assert false;
    }
  }

  // ----- In which order -----

  /** fn is a function of slot s of bus b, or lies behind the bridge there. */
  ghost predicate Under(c: Config, rank: nat -> nat, b: nat, s: nat, fn: Function)
    requires Acyclic(c, rank)
  {
    (fn.bus == b && fn.slot == s) || (Bridge(c, b, s) && Reaches(c, rank, Secondary(c, b, s), fn.bus))
  }

  lemma UnderOneSlot(c: Config, rank: nat -> nat, b: nat, s: nat, t: nat, fn: Function)
    requires Acyclic(c, rank) && Tree(c) && Under(c, rank, b, s, fn) && Under(c, rank, b, t, fn)
    ensures s == t
  {
    hide Reaches, Present, IsBridge;
    if s != t {
      if Bridge(c, b, s) && Reaches(c, rank, Secondary(c, b, s), fn.bus) {
        if fn.bus == b {
          ReachesLowersRank(c, rank, Secondary(c, b, s), b);
          assert false;
        } else {
          BranchesDisjoint(c, rank, b, s, t, fn.bus);
        }
      } else {
        ReachesLowersRank(c, rank, Secondary(c, b, t), b);
        assert false;
      }
    }
  }

  lemma LaterStep(c: Config, b: nat, s: nat, f: nat)
    requires f < 8
    ensures LaterFunctions(c, b, s, f)
         == (if Present(c, b, s, f) then [Function(b, s, f)] else []) + LaterFunctions(c, b, s, f + 1)
  {
  }

  lemma LaterEnd(c: Config, b: nat, s: nat)
    ensures forall f | f >= 8 :: LaterFunctions(c, b, s, f) == []
  {
  }

  lemma {:induction false} LaterAscend(c: Config, b: nat, s: nat, f: nat, i: nat, j: nat)
    requires i < j < |LaterFunctions(c, b, s, f)|
    ensures var fns := LaterFunctions(c, b, s, f);
            && fns[i].bus == b == fns[j].bus && fns[i].slot == s == fns[j].slot && f <= fns[i].func < fns[j].func
    decreases 8 - f
  {
    hide LaterFunctions, Present;
    LaterEnd(c, b, s);
    LaterStep(c, b, s, f);
    var rest, skipped := LaterFunctions(c, b, s, f + 1), if Present(c, b, s, f) then 1 else 0;
    assert rest[j - skipped] in rest;
    InLaterFunctions(c, b, s, f + 1, rest[j - skipped]);
    if i >= skipped {
      LaterAscend(c, b, s, f + 1, i - skipped, j - skipped);
    }
  }

  /** Within a slot function 0 comes first and the later functions follow in order; what lies behind a bridge follows
      its function 0, and there is nothing else. */
  lemma SlotInOrder(c: Config, rank: nat -> nat, b: nat, s: nat, i: nat, j: nat)
    requires Acyclic(c, rank) && s < 32 && i < j < |SlotWalk(c, rank, b, s)|
    ensures var fns := SlotWalk(c, rank, b, s);
            fns[j].bus == b ==> fns[i].bus == b && fns[i].slot == s == fns[j].slot && fns[i].func < fns[j].func
  {
    hide BusWalk, LaterFunctions, Reaches, Present, HeaderType;
    BridgeIsSingle(c, b, s);
    if IsBridge(c, b, s) {
      BehindIsElsewhere(c, rank, b, s, j - 1);
    } else if MultiFunction(c, b, s) {
      hide SlotWalk;
      LaterFollow(c, rank, b, s);
      LaterOfSlot(c, b, s, j - 1);
      if i > 0 {
        LaterAscend(c, b, s, 1, i - 1, j - 1);
      }
    }
  }

  lemma LaterFollow(c: Config, rank: nat -> nat, b: nat, s: nat)
    requires Acyclic(c, rank) && s < 32 && Present(c, b, s, 0) && !IsBridge(c, b, s) && MultiFunction(c, b, s)
    ensures SlotWalk(c, rank, b, s) == [Function(b, s, 0)] + LaterFunctions(c, b, s, 1)
  {
  }

  lemma LaterOfSlot(c: Config, b: nat, s: nat, k: nat)
    requires k < |LaterFunctions(c, b, s, 1)|
    ensures var fn := LaterFunctions(c, b, s, 1)[k]; fn.bus == b && fn.slot == s && fn.func >= 1
  {
    hide LaterFunctions, Present;
    var later := LaterFunctions(c, b, s, 1);
    assert later[k] in later;
    InLaterFunctions(c, b, s, 1, later[k]);
  }

  lemma BehindIsElsewhere(c: Config, rank: nat -> nat, b: nat, s: nat, k: nat)
    requires Acyclic(c, rank) && Bridge(c, b, s) && k < |BusWalk(c, rank, Secondary(c, b, s), 0)|
    ensures BusWalk(c, rank, Secondary(c, b, s), 0)[k].bus != b
  {
    hide BusWalk, Reaches, Present, IsBridge, Answers;
    var behind := BusWalk(c, rank, Secondary(c, b, s), 0);
    assert behind[k] in behind;
    WalkFindsReachable(c, rank, Secondary(c, b, s), behind[k]);
    if behind[k].bus == b {
      ReachesLowersRank(c, rank, Secondary(c, b, s), b);
      assert false;
    }
  }

  /** The functions under one slot of a bus are visited before those under a later one, and within a slot function 0
      before the others, which are visited in order. */
  lemma {:induction false} WalkInOrder(c: Config, rank: nat -> nat, b: nat, s: nat, i: nat, j: nat, t: nat, u: nat)
    requires Acyclic(c, rank) && Tree(c) && i < j < |BusWalk(c, rank, b, s)|
    requires Under(c, rank, b, t, BusWalk(c, rank, b, s)[i]) && Under(c, rank, b, u, BusWalk(c, rank, b, s)[j])
    ensures t <= u
    ensures var fns := BusWalk(c, rank, b, s);
            t == u && fns[j].bus == b ==> fns[i].bus == b && fns[i].func < fns[j].func
    decreases 33 - s
  {
    hide Reaches, SlotWalk, Under, Answers;
    var fns, here, rest := BusWalk(c, rank, b, s), SlotWalk(c, rank, b, s), BusWalk(c, rank, b, s + 1);
    assert fns == here + rest;
    if i >= |here| {
      WalkInOrder(c, rank, b, s + 1, i - |here|, j - |here|, t, u);
    } else {
      assert fns[i] == here[i] && here[i] in here;
      UnderThisSlot(c, rank, b, s, here[i]);
      UnderOneSlot(c, rank, b, s, t, fns[i]);
      if j < |here| {
        assert fns[j] == here[j] && here[j] in here;
        UnderThisSlot(c, rank, b, s, here[j]);
        UnderOneSlot(c, rank, b, s, u, fns[j]);
        SlotInOrder(c, rank, b, s, i, j);
      } else {
        assert fns[j] == rest[j - |here|] && rest[j - |here|] in rest;
        var v := UnderLaterSlot(c, rank, b, s + 1, fns[j]);
        UnderOneSlot(c, rank, b, v, u, fns[j]);
      }
    }
  }

  lemma UnderThisSlot(c: Config, rank: nat -> nat, b: nat, s: nat, fn: Function)
    requires Acyclic(c, rank) && s < 32 && fn in SlotWalk(c, rank, b, s)
    ensures Under(c, rank, b, s, fn)
  {
    hide Reaches, SlotWalk;
    InSlotWalk(c, rank, b, s, fn);
  }

  lemma UnderLaterSlot(c: Config, rank: nat -> nat, b: nat, s: nat, fn: Function) returns (t: nat)
    requires Acyclic(c, rank) && fn in BusWalk(c, rank, b, s)
    ensures t >= s && Under(c, rank, b, t, fn)
  {
    hide Reaches, BusWalk;
    InBusWalk(c, rank, b, s, fn);
    if fn.bus == b && fn.slot >= s {
      t := fn.slot;
    } else {
      t :| t >= s && Bridge(c, b, t) && Reaches(c, rank, Secondary(c, b, t), fn.bus);
    }
  }

  /** Behind a bridge the order is that of the walk of the bus behind it. */
  lemma BehindInOrder(c: Config, rank: nat -> nat, b: nat, s: nat)
    requires Acyclic(c, rank) && Bridge(c, b, s)
    ensures SlotWalk(c, rank, b, s) == [Function(b, s, 0)] + BusWalk(c, rank, Secondary(c, b, s), 0)
  {
    BridgeIsSingle(c, b, s);
  }

  // ----- Names -----

  function Prefix(): CString { "PciDevice" }

  function DeviceName(i: nat): CString {
    DigitsAreClean(i, 10);
    Prefix() + Digits(i, 10)
  }

  function DirectoryNames(): seq<CString> { [".", "Devices", "PciDevices"] }

  /** A path below "./Devices/PciDevices". */
  function DevicesPath(last: CString): CString { Join(".", Join("Devices", Join("PciDevices", last))) }

  function DirectoryPath(): CString { Join(".", Join("Devices", "PciDevices")) }

  lemma DirectorySplits()
    ensures Split(DirectoryPath()) == DirectoryNames() && |Rest(DirectoryPath())| < 256
  {
    hide Split, Rest, Join;
    NoSlash("PciDevices");
    SplitJoin("Devices", "PciDevices");
    SplitJoin(".", Join("Devices", "PciDevices"));
  }

  lemma PathSplits(last: CString)
    requires '/' !in last && |last| < 100
    ensures Split(DevicesPath(last)) == DirectoryNames() + [last] && |Rest(DevicesPath(last))| < 256
  {
    hide Split, Rest, Join;
    NoSlash(last);
    SplitJoin("PciDevices", last);
    SplitJoin("Devices", Join("PciDevices", last));
    SplitJoin(".", Join("Devices", Join("PciDevices", last)));
  }

  lemma PathsAppend(last: CString, more: CString)
    ensures DevicesPath(last) + more == DevicesPath(last + more)
  {
    assert Join("PciDevices", last) + more == Join("PciDevices", last + more);
    var p := Join("PciDevices", last);
    assert Join("Devices", p) + more == Join("Devices", p + more);
    var q := Join("Devices", p);
    assert Join(".", q) + more == Join(".", q + more);
  }

  lemma NamesDiffer(i: nat, j: nat)
    requires i < 1000 && j < 1000
    ensures 0 < |DeviceName(i)| <= 12 && '/' !in DeviceName(i) && DeviceName(i) != "."
    ensures Clip(DeviceName(i), 32) == Clip(DeviceName(j), 32) <==> i == j
  {
    DecimalLength(i);
    DecimalLength(j);
    DigitsAreClean(i, 10);
    if DeviceName(i) == DeviceName(j) {
      assert DeviceName(i)[9..] == Digits(i, 10) && DeviceName(j)[9..] == Digits(j, 10);
      DigitsInjective(i, j, 10);
    }
  }
}
