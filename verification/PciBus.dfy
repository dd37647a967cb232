/** The PCI driver over the object namespace: the bus scan names the functions densely in walk order, and
    the search by class agrees with the scan through number printing and name lookup. */
module PciBus {
  import opened Prelude
  import opened CString
  import opened ObjectDirectory
  import opened NameLaws
  import opened Pci

  // ----- The numbered directory -----

  /** The names "./Devices/PciDevices" resolve to the directory. */
  ghost predicate Located(n: Namespace, dir: Id) {
    Closed(n) && IsDirectory(n, dir) && Walk(n, n.cwd, DirectoryNames()) == Some(dir)
  }

  ghost predicate Numbered(objects: map<Id, Object>, ids: seq<Id>) {
    forall k | 0 <= k < |ids| :: ids[k] in objects && objects[ids[k]].name == DeviceName(k)
  }

  lemma {:induction false} FindFrom(objects: map<Id, Object>, ids: seq<Id>, i: nat, k: nat)
    requires Numbered(objects, ids) && |ids| < 1000 && i < 1000 && k <= |ids|
    requires forall c | c in ids[k..] :: c in objects
    ensures FirstMatch(objects, ids[k..], DeviceName(i)) == if k <= i < |ids| then Some(ids[i]) else None
    decreases |ids| - k
  {
    hide DeviceName, Clip;
    if k < |ids| {
      NamesDiffer(k, i);
      assert ids[k..][1..] == ids[k + 1..];
      FindFrom(objects, ids, i, k + 1);
    }
  }

  /** Walking to a printed number finds the object registered under it. */
  lemma FindNumbered(n: Namespace, dir: Id, i: nat)
    requires Located(n, dir) && Numbered(n.objects, n.objects[dir].children)
    requires |n.objects[dir].children| < 1000 && i < 1000
    ensures Walk(n, n.cwd, DirectoryNames() + [DeviceName(i)])
         == if i < |n.objects[dir].children| then Some(n.objects[dir].children[i]) else None
  {
    hide DeviceName, Numbered, FirstMatch;
    var ids := n.objects[dir].children;
    NamesDiffer(i, i);
    WalkExtends(n, n.cwd, DirectoryNames(), DeviceName(i));
    assert ids[0..] == ids;
    FindFrom(n.objects, ids, i, 0);
    assert [DeviceName(i)][1..] == [];
  }

  lemma LocatedStays(n: Namespace, dir: Id, made: Id, o: Object)
    requires Located(n, dir) && made !in n.objects && o.children == []
    ensures Located(WithChild(n, dir, made, o), dir)
  {
    hide Walk;
    ResolvedStays(n, dir, made, o, n.cwd, DirectoryNames());
  }

  lemma NumberedStays(n: Namespace, dir: Id, made: Id, o: Object)
    requires dir in n.objects && Numbered(n.objects, n.objects[dir].children) && made !in n.objects
    requires o.name == DeviceName(|n.objects[dir].children|) && dir !in n.objects[dir].children
    ensures var m := WithChild(n, dir, made, o).objects; Numbered(m, m[dir].children)
  {
    hide DeviceName;
  }

  // ----- The search -----

  /** The functions of a class, in order. */
  function OfClass(c: Config, fns: seq<Function>, classCode: nat, subclass: nat): seq<Function> {
    if fns == [] then []
    else (if HasClass(c, fns[0], classCode, subclass) then [fns[0]] else []) + OfClass(c, fns[1..], classCode, subclass)
  }

  /** "./Devices" is there. */
  ghost predicate HasDevices(n: Namespace) { Closed(n) && Walk(n, n.cwd, [".", "Devices"]).Some? }

  /** If "./Devices" is there, it is a directory. */
  ghost predicate DevicesOk(n: Namespace) {
    Closed(n) && (HasDevices(n) ==> IsDirectory(n, Walk(n, n.cwd, [".", "Devices"]).value))
  }

  /** "./Devices" is there and has no child "PciDevices". */
  ghost predicate IsFree(n: Namespace) {
    && DevicesOk(n) && HasDevices(n)
    && FirstMatch(n.objects, n.objects[Walk(n, n.cwd, [".", "Devices"]).value].children, "PciDevices").None?
  }

  class Driver {
    const om: ObjectManager
    const config: Config
    var info: map<Id, Info>
    var deviceCount: nat
    /** Objects are allocated under numbers not yet in use. */
    var nextId: Id
    ghost var dir: Id
    /** The functions registered so far, in order. */
    ghost var registered: seq<Function>

    constructor (om: ObjectManager, config: Config, nextId: Id)
      ensures this.om == om && this.config == config && this.nextId == nextId && deviceCount == 0 && info == map[]
    {
      this.om, this.config, this.nextId := om, config, nextId;
      deviceCount, info := 0, map[];
    }

    ghost predicate Ready()
      reads this, om, om.owned, om.cells
    {
      && om.Linked() && (forall id | id in om.objects :: id < nextId)
      && Located(om.View(), dir) && dir !in om.objects[dir].children
    }

    /** The directory's children are the registered functions, named densely and described truthfully. */
    ghost predicate Valid()
      reads this, om, om.owned, om.cells
    {
      && Ready() && Numbered(om.objects, om.objects[dir].children)
      && |om.objects[dir].children| == |registered| && |registered| < 1000
      && (forall k | 0 <= k < |registered| ::
            var id := om.objects[dir].children[k];
            id in info && id < nextId && info[id].fn == registered[k] && Truthful(config, info[id]))
    }

    /** HalInitializePci: if "./Devices" names a directory without a "PciDevices", an empty one is made. */
    method HalInitializePci()
      requires om.Linked() && DevicesOk(om.View()) && forall id | id in om.objects :: id < nextId
      modifies this`nextId, this`dir, this`registered
      modifies om`objects, om`headers, om`lists, om`owned, om`cells, om.owned, om.cells
      ensures om.Linked() && om.Grown()
      ensures !HasDevices(old(om.View())) ==> om.objects == old(om.objects)
      ensures IsFree(old(om.View())) ==> Valid() && registered == []
    {
      hide Walk, FirstMatch, Split, Rest, ObjectManager.Linked, Valid;
      DevicesSplits();
      ghost var n := om.View();
      var parent := om.ResolveObjectName(None, Some(Join(".", "Devices")));
      if parent.None? {
        return;
      }
      var made := nextId;
      nextId := nextId + 1;
      om.CreateDirectory(parent.value, "PciDevices", made);
      dir, registered := made, [];
      if IsFree(n) {
        DirectoryMade(n, parent.value, made, [".", "Devices"], "PciDevices");
        assert [".", "Devices"] + ["PciDevices"] == DirectoryNames();
        StartsValid();
      }
    }

    lemma StartsValid()
      requires Ready() && om.objects[dir].children == [] && registered == []
      ensures Valid()
    {
      hide Located, Closed, Walk;
    }

    /** One of the two places that build a device name: the prefix followed by the printed number. */
    method NumberedName(prefix: CString, number: nat) returns (name: CString)
      requires number < 1000
      ensures name == prefix + Digits(number, 10)
    {
      hide Digits;
      DecimalLength(number);
      var numstr := new char[4](_ => '\0');
      Itoa(number, 10, numstr);
      ghost var digits := Digits(number, 10);
      DigitsAreClean(number, 10);
      name := Concatenate(prefix, numstr, digits);
    }

    /** strcat with a zero-terminated buffer. */
    method Concatenate(prefix: CString, numstr: array<char>, ghost digits: CString) returns (name: CString)
      requires |digits| < numstr.Length && numstr[..|digits|] == digits && numstr[|digits|] == '\0'
      ensures name == prefix + digits
    {
      assert forall k | 0 <= k < |digits| :: numstr[k] == digits[k];
      name := prefix;
      var i := 0;
      while numstr[i] != '\0'
        invariant i <= |digits| && name == prefix + digits[..i]
        decreases |digits| - i
      {
        name := name + [numstr[i]];
        i := i + 1;
      }
      assert digits[..i] == digits;
    }

    /** The two ways to fill in an object: a bridge is described by function 0 of its slot. */
    method Describe(bus: nat, slot: nat, func: nat) returns (i: Info)
      ensures i.fn == Function(bus, slot, func) && Truthful(config, i)
    {
      hide Truthful, Secondary;
      WordsOf(config, bus, slot, func);
      if HeaderType(config, bus, slot, 0) == 1 {
        i := Info(Function(bus, slot, func), true, config(bus, slot, 0, 0xA) / 256 % 256,
                  config(bus, slot, 0, 0xA) % 256, HeaderType(config, bus, slot, 0), Secondary(config, bus, slot));
      } else {
        i := Info(Function(bus, slot, func), false, config(bus, slot, func, 0xA) / 256 % 256,
                  config(bus, slot, func, 0xA) % 256, HeaderType(config, bus, slot, func),
                  Secondary(config, bus, slot));
      }
    }

    /** HalAddPciDevice: if the device directory is there, a function that answers is described and appended
        to it under the name. */
    method HalAddPciDevice(bus: nat, slot: nat, func: nat, name: CString) returns (r: Option<Id>)
      requires om.Linked() && Closed(om.View()) && (forall id | id in om.objects :: id < nextId) && |name| < 32
      requires var d := Walk(om.View(), om.cwd, DirectoryNames()); d.Some? ==> IsDirectory(om.View(), d.value)
      modifies this`info, this`nextId
      modifies om`objects, om`headers, om`lists, om`owned, om`cells, om.owned, om.cells
      ensures om.Grown()
      ensures om.Linked()
      ensures r.Some? <==> Walk(old(om.View()), om.cwd, DirectoryNames()).Some? && Present(config, bus, slot, func)
      ensures r.None? ==> om.objects == old(om.objects) && info == old(info) && nextId == old(nextId)
      ensures r.Some? ==> r.value == old(nextId) && nextId == old(nextId) + 1
      ensures r.Some? ==> r.value in info && info == old(info)[r.value := info[r.value]]
      ensures r.Some? ==> info[r.value].fn == Function(bus, slot, func) && Truthful(config, info[r.value])
      ensures r.Some? ==> exists kind ::
                om.View() == WithChild(old(om.View()), Walk(old(om.View()), om.cwd, DirectoryNames()).value,
                                       r.value, Object(name, kind, []))
    {
      hide Walk, Split, Rest, ObjectManager.Linked, FirstMatch, Closed, HeaderType, Secondary, Clip, Truthful;
      DirectorySplits();
      ghost var n := om.View();
      var found := om.ResolveObjectName(None, Some(DirectoryPath()));
      if found.None? {
        return None;
      }
      if config(bus, slot, func, 0) == 0xFFFF {
        return None;
      }
      var made := nextId;
      nextId := nextId + 1;
      var description := Describe(bus, slot, func);
      info := info[made := description];
      // the type field of the new header is never set
      var kind: int := *;
      om.AddObject(made, name, kind);
      om.AddChild(found.value, made);
      assert om.View() == WithChild(n, found.value, made, Object(name, kind, []));
      return Some(made);
    }

    /** Printing the next number, counting, and adding: done alike for function 0 and for later ones. */
    method AddNumbered(bus: nat, slot: nat, func: nat) returns (r: Option<Id>)
      requires Valid() && deviceCount == |registered| < 999 && Present(config, bus, slot, func)
      modifies this`info, this`nextId, this`registered, this`deviceCount
      modifies om`objects, om`headers, om`lists, om`owned, om`cells, om.owned, om.cells
      ensures om.Grown()
      ensures Valid() && deviceCount == |registered| && registered == old(registered) + [Function(bus, slot, func)]
      ensures r.Some? && r.value in info
      ensures info[r.value].fn == Function(bus, slot, func) && Truthful(config, info[r.value])
      ensures forall id | id in old(info) && id < old(nextId) :: id in info && info[id] == old(info)[id]
      ensures r.value < nextId && old(nextId) <= nextId && dir == old(dir)
    {
      hide Numbered, Located, DeviceName, Truthful, Present, Closed, Walk, ObjectManager.Linked, FirstMatch;
      LocatedMeans(om.View(), dir);
      var name := NumberedName(Prefix(), deviceCount);
      NameIs(deviceCount);
      NamesDiffer(deviceCount, deviceCount);
      deviceCount := deviceCount + 1;
      ghost var n := om.View();
      ghost var ids := om.objects[dir].children;
      r := HalAddPciDevice(bus, slot, func, name);
      ghost var o: Object := om.objects[r.value];
      registered := registered + [Function(bus, slot, func)];
      NumberedStays(n, dir, r.value, o);
      LocatedStays(n, dir, r.value, Object(name, o.kind, []));
      assert om.objects[dir].children == ids + [r.value];
    }

    /** HalCheckPciBus: the bus and everything behind it are registered in walk order.  The bus arrives as
        an int and is cut to a byte wherever it is used; a secondary number passes through a signed char. */
    method HalCheckPciBus(busNum: int, ghost rank: nat -> nat)
      requires Valid() && deviceCount == |registered| && Acyclic(config, rank)
      requires |registered| + |BusWalk(config, rank, Byte(busNum), 0)| <= 999
      modifies this`info, this`nextId, this`registered, this`deviceCount
      modifies om`objects, om`headers, om`lists, om`owned, om`cells, om.owned, om.cells
      ensures om.Grown()
      ensures Valid() && deviceCount == |registered|
      ensures registered == old(registered) + BusWalk(config, rank, Byte(busNum), 0)
      ensures dir == old(dir) && old(nextId) <= nextId
      ensures forall id | id in old(info) && id < old(nextId) :: id in info && info[id] == old(info)[id]
      decreases rank(Byte(busNum)), 1
    {
      hide Valid, BusWalk, SlotWalk, LaterFunctions, Present, Acyclic, Byte;
      var bus := Byte(busNum);
      var dev := 0;
      while dev < 32
        invariant dev <= 32 && Valid() && deviceCount == |registered|
        invariant registered + BusWalk(config, rank, bus, dev) == old(registered) + BusWalk(config, rank, bus, 0)
        invariant dir == old(dir) && old(nextId) <= nextId
        invariant fresh(om.owned - old(om.owned)) && fresh(om.cells - old(om.cells))
        invariant forall id | id in old(info) && id < old(nextId) :: id in info && info[id] == old(info)[id]
        decreases 32 - dev
      {
        BusStep(config, rank, bus, dev);
        ghost var before, rest := registered, BusWalk(config, rank, bus, dev + 1);
        assert before + (SlotWalk(config, rank, bus, dev) + rest) == before + SlotWalk(config, rank, bus, dev) + rest;
        assert |before| + |SlotWalk(config, rank, bus, dev)| <= |before + BusWalk(config, rank, bus, dev)|;
        if Present(config, bus, dev, 0) {
          CheckSlot(bus, dev, rank);
        }
        dev := dev + 1;
      }
      BusEnd(config, rank, bus);
    }

    /** What the scan does for a slot whose function 0 answers. */
    method CheckSlot(bus: nat, dev: nat, ghost rank: nat -> nat)
      requires Valid() && deviceCount == |registered| && Acyclic(config, rank) && dev < 32
      requires Present(config, bus, dev, 0)
      requires |registered| + |SlotWalk(config, rank, bus, dev)| <= 999
      modifies this`info, this`nextId, this`registered, this`deviceCount
      modifies om`objects, om`headers, om`lists, om`owned, om`cells, om.owned, om.cells
      ensures om.Grown()
      ensures Valid() && deviceCount == |registered|
      ensures registered == old(registered) + SlotWalk(config, rank, bus, dev)
      ensures dir == old(dir) && old(nextId) <= nextId
      ensures forall id | id in old(info) && id < old(nextId) :: id in info && info[id] == old(info)[id]
      decreases rank(bus), 0
    {
      hide Valid, BusWalk, SlotWalk, LaterFunctions, Present, Secondary, Byte, SignedChar, Truthful;
      SlotParts(config, rank, bus, dev);
      var x := AddNumbered(bus, dev, 0);
      var function0 := info[x.value];
      TruthfulHeader(config, function0);
      if function0.bridge {
        BehindBridge(config, rank, bus, dev);
        HalCheckPciBus(SignedChar(function0.secondary), rank);
        ghost var behind := BusWalk(config, rank, Secondary(config, bus, dev), 0);
        assert registered == old(registered) + ([Function(bus, dev, 0)] + behind);
      }
      if function0.headerType / 128 % 2 == 1 {
        CheckLaterFunctions(bus, dev);
        assert registered == old(registered) + ([Function(bus, dev, 0)] + LaterFunctions(config, bus, dev, 1));
      }
    }

    /** The loop over functions 1 to 7 of a multi-function slot. */
    method CheckLaterFunctions(bus: nat, dev: nat)
      requires Valid() && deviceCount == |registered| && MultiFunction(config, bus, dev)
      requires |registered| + |LaterFunctions(config, bus, dev, 1)| <= 999
      modifies this`info, this`nextId, this`registered, this`deviceCount
      modifies om`objects, om`headers, om`lists, om`owned, om`cells, om.owned, om.cells
      ensures om.Grown()
      ensures Valid() && deviceCount == |registered|
      ensures registered == old(registered) + LaterFunctions(config, bus, dev, 1)
      ensures dir == old(dir) && old(nextId) <= nextId
      ensures forall id | id in old(info) && id < old(nextId) :: id in info && info[id] == old(info)[id]
    {
      hide Valid, LaterFunctions, Present, IsBridge, MultiFunction, Truthful;
      var func := 1;
      while func < 8
        invariant 1 <= func <= 8 && Valid() && deviceCount == |registered|
        invariant registered + LaterFunctions(config, bus, dev, func)
                    == old(registered) + LaterFunctions(config, bus, dev, 1)
        invariant dir == old(dir) && old(nextId) <= nextId
        invariant fresh(om.owned - old(om.owned)) && fresh(om.cells - old(om.cells))
        invariant forall id | id in old(info) && id < old(nextId) :: id in info && info[id] == old(info)[id]
        decreases 8 - func
      {
        LaterStep(config, bus, dev, func);
        ghost var before, rest := registered, LaterFunctions(config, bus, dev, func + 1);
        assert before + ([Function(bus, dev, func)] + rest) == before + [Function(bus, dev, func)] + rest;
        if Present(config, bus, dev, func) {
          assert |before + LaterFunctions(config, bus, dev, func)| <= 999;
          var x := AddNumbered(bus, dev, func);
          BridgeIsSingle(config, bus, dev);
          TruthfulHeader(config, info[x.value]);
          if info[x.value].bridge {
            // the type comes from function 0, whose header type 1 would have had no later functions
            assert false;
          }
        }
        func := func + 1;
      }
      LaterEnd(config, bus, dev);
    }

    /** HalSearchForPciDevice: the given number counts the functions of the class in walk order, and null
        is answered exactly when there are too few. */
    method HalSearchForPciDevice(classCode: nat, subclass: nat, number: int) returns (r: Option<Id>)
      requires Valid()
      ensures var found := OfClass(config, registered, classCode, subclass);
              && (r.Some? <==> 0 <= number < |found|)
              && (r.Some? ==> r.value in info && info[r.value].fn == found[number] && Truthful(config, info[r.value]))
    {
      hide Located, Numbered, OfClass, HasClass, Walk, DevicesPath, DeviceName, Split, Rest, Truthful,
           ObjectManager.Linked;
      var left := number;
      ghost var passed: seq<Function> := [];
      var i := 0;
      assert registered[0..] == registered;
      while i < 8192
        invariant i <= |registered| && left == number - |passed| && (number >= 0 ==> left >= 0)
        invariant OfClass(config, registered, classCode, subclass)
               == passed + OfClass(config, registered[i..], classCode, subclass)
        decreases 8192 - i
      {
        SearchPath(i);
        LocatedMeans(om.View(), dir);
        FindNumbered(om.View(), dir, i);
        var name := NumberedName(DevicesPath(Prefix()), i);
        r := om.ResolveObjectName(None, Some(name));
        OfClassStep(config, registered, i, classCode, subclass);
        if r.Some? {
          TruthfulClass(config, info[r.value], classCode, subclass);
        }
        if r.None? {
          return;
        }
        if info[r.value].classCode != classCode || info[r.value].subclass != subclass {
          i := i + 1;
          continue;
        }
        if left != 0 {
          left := left - 1;
          passed := passed + [registered[i]];
          i := i + 1;
          continue;
        }
        return;
      }
      assert false;
    }
  }

  /** The bytes cut from the configuration words of a function describe it. */
  lemma WordsOf(c: Config, b: nat, s: nat, f: nat)
    ensures var g := if HeaderType(c, b, s, 0) == 1 then 0 else f;
            Truthful(c, Info(Function(b, s, f), HeaderType(c, b, s, 0) == 1, c(b, s, g, 0xA) / 256 % 256,
                             c(b, s, g, 0xA) % 256, HeaderType(c, b, s, g), Secondary(c, b, s)))
  {
    hide Secondary, IsHighByte;
    var g := if HeaderType(c, b, s, 0) == 1 then 0 else f;
    HeaderBytes(c, b, s, g);
    TwoBytes(c(b, s, g, 0xA));
  }

  lemma TwoBytes(word: nat)
    ensures word % 0x1_0000 == 0x100 * (word / 256 % 256) + word % 256
  {
    var high := word / 256;
    assert word == 256 * high + word % 256 && high == 256 * (high / 256) + high % 256;
    CutsOff(word, high / 256, 0x100 * (high % 256) + word % 256);
  }

  lemma CutsOff(word: nat, k: nat, r: nat)
    requires word == 0x1_0000 * k + r && r < 0x1_0000
    ensures word % 0x1_0000 == r
  {
  }

  /** The class of what is kept is the class by the configuration words. */
  lemma TruthfulClass(c: Config, i: Info, classCode: nat, subclass: nat)
    requires Truthful(c, i)
    ensures i.classCode == classCode && i.subclass == subclass <==> HasClass(c, i.fn, classCode, subclass)
  {
  }

  /** What the scan goes by is in what is kept. */
  lemma TruthfulHeader(c: Config, i: Info)
    requires Truthful(c, i)
    ensures i.secondary == Secondary(c, i.fn.bus, i.fn.slot) && (i.bridge <==> IsBridge(c, i.fn.bus, i.fn.slot))
    ensures i.headerType == HeaderType(c, i.fn.bus, i.fn.slot, Describing(c, i.fn))
  {
    hide HasClass;
    HeaderBytes(c, i.fn.bus, i.fn.slot, Describing(c, i.fn));
  }

  /** The value of an int as a uint8_t. */
  function Byte(n: int): nat { n % 256 }

  /** The value of a byte as a char, which is signed on the target. */
  function SignedChar(b: nat): int { if b >= 128 then b - 256 else b }

  lemma BusStep(c: Config, rank: nat -> nat, b: nat, s: nat)
    requires Acyclic(c, rank) && s < 32
    ensures BusWalk(c, rank, b, s) == SlotWalk(c, rank, b, s) + BusWalk(c, rank, b, s + 1)
    ensures !Present(c, b, s, 0) ==> SlotWalk(c, rank, b, s) == []
  {
  }

  lemma BusEnd(c: Config, rank: nat -> nat, b: nat)
    requires Acyclic(c, rank)
    ensures BusWalk(c, rank, b, 32) == []
  {
  }

  lemma SlotParts(c: Config, rank: nat -> nat, b: nat, s: nat)
    requires Acyclic(c, rank) && s < 32 && Present(c, b, s, 0)
    ensures !(IsBridge(c, b, s) && MultiFunction(c, b, s))
    ensures IsBridge(c, b, s) ==>
              SlotWalk(c, rank, b, s) == [Function(b, s, 0)] + BusWalk(c, rank, Secondary(c, b, s), 0)
    ensures MultiFunction(c, b, s) ==> SlotWalk(c, rank, b, s) == [Function(b, s, 0)] + LaterFunctions(c, b, s, 1)
    ensures !IsBridge(c, b, s) && !MultiFunction(c, b, s) ==> SlotWalk(c, rank, b, s) == [Function(b, s, 0)]
  {
    BridgeIsSingle(c, b, s);
  }

  lemma BehindBridge(c: Config, rank: nat -> nat, b: nat, s: nat)
    requires Acyclic(c, rank) && Bridge(c, b, s)
    ensures Byte(SignedChar(Secondary(c, b, s))) == Secondary(c, b, s) && rank(Secondary(c, b, s)) < rank(b)
  {
  }

  lemma OfClassStep(c: Config, fns: seq<Function>, i: nat, classCode: nat, subclass: nat)
    requires i <= |fns|
    ensures OfClass(c, fns[i..], classCode, subclass)
         == if i == |fns| then []
            else (if HasClass(c, fns[i], classCode, subclass) then [fns[i]] else [])
                 + OfClass(c, fns[i + 1..], classCode, subclass)
  {
    assert i < |fns| ==> fns[i..][1..] == fns[i + 1..];
  }

  lemma SearchPath(i: nat)
    requires i < 1000
    ensures DevicesPath(Prefix()) + Digits(i, 10) == DevicesPath(DeviceName(i))
    ensures Split(DevicesPath(DeviceName(i))) == DirectoryNames() + [DeviceName(i)]
    ensures |Rest(DevicesPath(DeviceName(i)))| < 256
  {
    hide Split, Rest, DevicesPath, Prefix, Digits;
    DigitsAreClean(i, 10);
    PathsAppend(Prefix(), Digits(i, 10));
    NamesDiffer(i, i);
    PathSplits(DeviceName(i));
  }

  lemma NameIs(i: nat)
    ensures DeviceName(i) == Prefix() + Digits(i, 10)
  {
  }

  lemma LocatedMeans(n: Namespace, dir: Id)
    requires Located(n, dir)
    ensures Closed(n) && IsDirectory(n, dir) && IsDirectory(n, n.cwd) && Walk(n, n.cwd, DirectoryNames()) == Some(dir)
  {
  }

  lemma DevicesSplits()
    ensures Split(Join(".", "Devices")) == [".", "Devices"] && |Rest(Join(".", "Devices"))| < 256
  {
    hide Split, Rest, Join;
    NoSlash("Devices");
    SplitJoin(".", "Devices");
  }

  lemma DirectoryMade(n: Namespace, parent: Id, made: Id, names: seq<CString>, name: CString)
    requires Closed(n) && IsDirectory(n, parent) && made !in n.objects
    requires names != [] && "" !in names && names[|names| - 1] != "." && Walk(n, n.cwd, names) == Some(parent)
    requires 0 < |name| < 32 && '/' !in name && name != "."
    requires FirstMatch(n.objects, n.objects[parent].children, name).None?
    ensures var n' := WithChild(n, parent, made, Object(Clip(name, 32), 1, []));
            Closed(n') && IsDirectory(n', made) && Walk(n', n'.cwd, names + [name]) == Some(made)
            && n'.objects[made].children == []
  {
    hide Walk, FirstMatch, Split;
    var o := Object(Clip(name, 32), 1, []);
    var n' := WithChild(n, parent, made, o);
    ResolvedStays(n, parent, made, o, n.cwd, names);
    NoSlash(name);
    CreatedIsFound(n, parent, made, name);
    WalkExtends(n', n'.cwd, names, name);
  }

  /** From the start of the kernel: the namespace, the device directory, the scan of bus 0, and a search. */
  method ScanAndSearch(config: Config, ghost rank: nat -> nat, classCode: nat, subclass: nat, number: int)
      returns (driver: Driver, r: Option<Id>)
    requires Acyclic(config, rank) && |BusWalk(config, rank, 0, 0)| <= 999
    ensures fresh(driver) && driver.Valid() && driver.config == config
    ensures driver.registered == BusWalk(config, rank, 0, 0)
    ensures var found := OfClass(config, BusWalk(config, rank, 0, 0), classCode, subclass);
            && (r.Some? <==> 0 <= number < |found|)
            && (r.Some? ==>
                  && r.value in driver.info && driver.info[r.value].fn == found[number]
                  && Truthful(config, driver.info[r.value]))
  {
    hide Acyclic, BusWalk, OfClass, Truthful, Walk, Closed, ObjectManager.Linked;
    var om := new ObjectManager();
    driver := new Driver(om, config, 2);
    om.InitializeObjectManager();
    assert FirstMatch(om.objects, om.objects[1].children, "PciDevices").None?;
    driver.HalInitializePci();
    hide Driver.Valid;
    driver.HalCheckPciBus(0, rank);
    r := driver.HalSearchForPciDevice(classCode, subclass, number);
  }
}
