/** The object namespace: the recursive resolver over slashed names, proved equal to a first-match walk
    over the '/'-separated components, and what adding a child does to it. */
module ObjectDirectory {
  import opened Prelude
  import opened CString

  type Id = nat

  /** An object header; `children` is the child list of a directory (type 1). */
  datatype Object = Object(name: CString, kind: int, children: seq<Id>)

  /** All objects, the root directory, the current task's working directory, and whether the current
      task may access the root. */
  datatype Namespace = Namespace(objects: map<Id, Object>, root: Id, cwd: Id, mayAccessRoot: bool)

  ghost predicate IsDirectory(n: Namespace, d: Id) { d in n.objects && n.objects[d].kind == 1 }

  ghost predicate Closed(n: Namespace) {
    && IsDirectory(n, n.root) && IsDirectory(n, n.cwd)
    && (forall d, c | d in n.objects && c in n.objects[d].children :: c in n.objects)
  }

  // ----- Components of a name -----

  function SlashAt(s: string): (i: nat)
    ensures i <= |s| && (i < |s| ==> s[i] == '/') && forall k | 0 <= k < i :: s[k] != '/'
  {
    if s == "" || s[0] == '/' then 0 else 1 + SlashAt(s[1..])
  }

  function Rest(s: string): string {
    if SlashAt(s) < |s| then s[SlashAt(s) + 1..] else ""
  }

  function Split(s: CString): (r: seq<CString>)
    ensures r != []
    decreases |s|
  {
    if SlashAt(s) == |s| then [s] else [s[..SlashAt(s)]] + Split(s[SlashAt(s) + 1..])
  }

  // ----- The walk -----

  predicate Matches(o: Object, name: CString) { Clip(o.name, 32) == Clip(name, 32) }

  function FirstMatch(objects: map<Id, Object>, children: seq<Id>, name: CString): (r: Option<Id>)
    requires forall c | c in children :: c in objects
    ensures r.Some? ==> r.value in children
  {
    if children == [] then None
    else if Matches(objects[children[0]], name) then Some(children[0])
    else FirstMatch(objects, children[1..], name)
  }

  /** ObjGetRootObject answers null to a task without access, and a null root stands for the working
      directory. */
  function RootFor(n: Namespace): Id { if n.mayAccessRoot then n.root else n.cwd }

  /** The first-match walk over components.  A component of more than 32 characters fails, and so does
      a last one of 32; "." restarts at the root; an empty remainder or a non-directory ends the walk. */
  function Walk(n: Namespace, d: Id, names: seq<CString>): Option<Id>
    requires Closed(n) && IsDirectory(n, d) && names != []
    decreases |names|
  {
    var name, rest := names[0], names[1..];
    if |name| > 32 || (|name| == 32 && rest == []) then None
    else if name == "." then
      if rest == [] then FirstMatch(n.objects, n.objects[RootFor(n)].children, "") else Walk(n, RootFor(n), rest)
    else
      match FirstMatch(n.objects, n.objects[d].children, name)
      case None => None
      case Some(c) => if rest != [] && rest != [""] && n.objects[c].kind == 1 then Walk(n, c, rest) else Some(c)
  }

  // ----- The resolver -----

  /** str_slice into a zeroed buffer of the given size: the characters from start to end, the
      terminating zero included when it is reached. */
  method StrSlice(str: CString, start: nat, end: int, size: nat) returns (result: string)
    requires end <= |str| && end - start < size
    ensures |result| <= size
    ensures result == if start > end then "" else if end < |str| then str[start..end + 1] else str[start..] + ['\0']
  {
    result := "";
    var from := start;
    while from <= end
      invariant start <= from && (from <= end + 1 || from == start)
      invariant result == if from <= |str| then str[start..from]
                          else if start <= |str| < from then str[start..] + ['\0'] else ""
      decreases end - from + 1
    {
      result := result + [At(str, from)];
      from := from + 1;
    }
  }

  /** What precedes the first zero of a buffer. */
  method TextOf(buffer: string, ghost text: CString) returns (r: CString)
    requires buffer == text || buffer == text + ['\0']
    ensures r == text
  {
    r := "";
    while |r| < |buffer| && buffer[|r|] != '\0'
      invariant |r| <= |text| && r == text[..|r|]
      decreases |buffer| - |r|
    {
      r := r + [buffer[|r|]];
    }
    assert |r| == |text|;
  }

  lemma SplitStep(s: CString)
    ensures Split(s)[0] == s[..SlashAt(s)] && '\0' !in Rest(s)
    ensures SlashAt(s) == |s| ==> Split(s)[1..] == [] && Rest(s) == ""
    ensures SlashAt(s) < |s| ==> Split(s)[1..] == Split(Rest(s)) && |Rest(s)| < |s|
    ensures Split(s) == [""] <==> s == ""
  {
  }

  lemma RestShrinks(s: CString)
    ensures |Rest(s)| < |s| || Rest(s) == ""
    ensures '\0' !in Rest(s) && |Rest(Rest(s))| <= |Rest(s)|
  {
  }

  /** The header that every object starts with. */
  datatype Header = Header(name: CString, kind: int)

  /** One step of the walk, in terms of the name instead of its components. */
  lemma WalkStep(n: Namespace, d: Id, path: CString)
    requires Closed(n) && IsDirectory(n, d)
    ensures |Rest(path)| < |path| || Rest(path) == ""
    ensures IsDirectory(n, n.root) && IsDirectory(n, n.cwd)
    ensures forall name | FirstMatch(n.objects, n.objects[d].children, name).Some? ::
              FirstMatch(n.objects, n.objects[d].children, name).value in n.objects
    ensures Walk(n, d, Split(path))
         == if !(SlashAt(path) < 32 || (SlashAt(path) == 32 && |path| > 32)) then None
            else if Split(path)[0] == "." then Walk(n, RootFor(n), Split(Rest(path)))
            else match FirstMatch(n.objects, n.objects[d].children, Split(path)[0])
                 case None => None
                 case Some(c) => if Rest(path) != "" && n.objects[c].kind == 1 then Walk(n, c, Split(Rest(path)))
                                 else Some(c)
  {
    hide SlashAt, FirstMatch;
    SplitStep(path);
    SplitStep(Rest(path));
    EmptyName(n, RootFor(n));
    SplitStep("");
  }

  /** A cell of a child list. */
  class ListCell {
    const item: Id
    ghost const list: HeaderList
    var next: ListCell?

    constructor (item: Id, ghost list: HeaderList)
      ensures this.item == item && this.list == list && next == null
    {
      this.item, this.list, this.next := item, list, null;
    }
  }

  ghost function Items(cells: seq<ListCell>): (r: seq<Id>)
    ensures |r| == |cells| && forall i | 0 <= i < |cells| :: r[i] == cells[i].item
  {
    seq(|cells|, i requires 0 <= i < |cells| => cells[i].item)
  }

  /** The linked child list of a directory, whose items are the `children` of its object. */
  class HeaderList {
    ghost const directory: Id
    var first: ListCell?
    ghost var cells: seq<ListCell>

    constructor (ghost directory: Id)
      ensures Linked() && cells == [] && this.directory == directory
    {
      this.directory, first, cells := directory, null, [];
    }

    ghost predicate Linked()
      reads `first, `cells, cells
    {
      && (forall i, j | 0 <= i < j < |cells| :: cells[i] != cells[j])
      && (forall i | 0 <= i < |cells| - 1 :: cells[i].next == cells[i + 1])
      && (cells == [] ==> first == null)
      && (cells != [] ==> first == cells[0] && cells[|cells| - 1].next == null)
      && (forall c | c in cells :: c.list == this)
    }

    twostate lemma StillLinked()
      requires old(Linked()) && cells == old(cells) && first == old(first)
      requires forall c | c in cells :: c.next == old(c.next)
      ensures Linked()
    {
    }

    lemma CellsAreOwn()
      requires Linked()
      ensures forall c | c in cells :: c.list == this
    {
    }

    lemma NextCell(i: nat)
      requires Linked() && i < |cells|
      ensures cells[i].next == if i + 1 < |cells| then cells[i + 1] else null
    {
    }

    method Last() returns (last: ListCell)
      requires Linked() && first != null
      ensures cells != [] && last == cells[|cells| - 1]
    {
      last := first;
      ghost var i := 0;
      NextCell(0);
      while last.next != null
        invariant i < |cells| && last == cells[i]
        invariant last.next == if i + 1 < |cells| then cells[i + 1] else null
        decreases |cells| - i
      {
        last := last.next;
        i := i + 1;
        NextCell(i);
      }
    }

    /** DirectoryAddChild: the search for the last cell, and a new one behind it. */
    method AddChild(child: Id)
      requires Linked()
      modifies `first, `cells, cells
      ensures Linked() && Items(cells) == old(Items(cells)) + [child]
      ensures |cells| == |old(cells)| + 1 && cells[..|old(cells)|] == old(cells) && fresh(cells[|old(cells)|])
    {
      var cell := new ListCell(child, this);
      if first == null {
        first := cell;
      } else {
        var last := Last();
        last.next := cell;
      }
      cells := cells + [cell];
    }

    /** The resolver's loop over the cells. */
    method FindChild(headers: map<Id, Header>, ghost objects: map<Id, Object>, name: CString) returns (r: Option<Id>)
      requires Linked()
      requires forall c | c in Items(cells) :: c in objects && c in headers && headers[c].name == objects[c].name
      ensures r == FirstMatch(objects, Items(cells), name)
    {
      hide Matches, FirstMatch, Clip, Items;
      ghost var items := Items(cells);
      var traversal := first;
      ghost var i := 0;
      while traversal != null
        invariant i <= |cells| && traversal == (if i < |cells| then cells[i] else null)
        invariant FirstMatch(objects, items[i..], name) == FirstMatch(objects, items, name)
        decreases |cells| - i
      {
        MatchStep(objects, items, i, name);
        var order := Strncmp(headers[traversal.item].name, name, 32);
        if order == 0 {
          return Some(traversal.item);
        }
        NextCell(i);
        traversal := traversal.next;
        i := i + 1;
      }
      MatchStep(objects, items, i, name);
      return None;
    }
  }

  lemma MatchStep(objects: map<Id, Object>, items: seq<Id>, i: nat, name: CString)
    requires i <= |items| && forall c | c in items :: c in objects
    ensures FirstMatch(objects, items[i..], name)
         == if i == |items| then None
            else if Clip(objects[items[i]].name, 32) == Clip(name, 32) then Some(items[i])
            else FirstMatch(objects, items[i + 1..], name)
  {
    assert i < |items| ==> items[i..][1..] == items[i + 1..];
  }

  /** The objects' headers and the linked child list of each; that of an object that is no directory stays
      empty.  `objects` is what they mean. */
  class ObjectManager {
    var headers: map<Id, Header>
    var lists: map<Id, HeaderList>
    var root: Id
    var cwd: Id
    var mayAccessRoot: bool
    ghost var objects: map<Id, Object>
    ghost var owned: set<HeaderList>
    ghost var cells: set<ListCell>

    ghost function View(): Namespace
      reads `objects, `root, `cwd, `mayAccessRoot
    {
      Namespace(objects, root, cwd, mayAccessRoot)
    }

    /** The list of d is linked and has the children of d. */
    ghost predicate Holds(d: Id)
      reads `headers, `lists, `objects, `owned, `cells, owned, cells
    {
      && d in headers && d in lists && d in objects && headers[d] == Header(objects[d].name, objects[d].kind)
      && lists[d] in owned && lists[d].directory == d && (forall c | c in lists[d].cells :: c in cells)
      && lists[d].Linked()
      && Items(lists[d].cells) == objects[d].children
    }

    ghost predicate Linked()
      reads `headers, `lists, `objects, `owned, `cells, owned, cells
    {
      && forall d | d in objects :: Holds(d)
    }

    lemma HeaderOf(d: Id)
      requires Linked() && d in objects
      ensures d in headers && d in lists && headers[d] == Header(objects[d].name, objects[d].kind)
      ensures lists[d].Linked() && Items(lists[d].cells) == objects[d].children
    {
      assert Holds(d);
    }

    /** Lists and cells are only added. */
    twostate predicate Grown()
      reads `owned, `cells
    {
      fresh(owned - old(owned)) && fresh(cells - old(cells))
    }

    constructor ()
      ensures Linked() && objects == map[] && owned == {} && cells == {} && root == cwd == 0 && mayAccessRoot
    {
      headers, lists, root, cwd, mayAccessRoot := map[], map[], 0, 0, true;
      objects, owned, cells := map[], {}, {};
    }

    /** InitializeObjectManager: a root directory with one empty directory, "Devices".  The working directory
        is the one that the first task will have, the root. */
    method InitializeObjectManager()
      requires Linked() && objects == map[] && root == cwd == 0 && mayAccessRoot
      modifies `objects, `headers, `lists, `owned, `cells, owned, cells
      ensures Linked() && Grown() && Initialized(View())
    {
      hide Linked, Holds, Initialized, Walk, Clip, FirstMatch, Matches, Items, WithChild, Closed, Split;
      AddObject(0, ".", 1);
      ghost var n := View();
      assert n == Namespace(map[0 := Object(".", 1, [])], 0, 0, true);
      CreateDirectory(0, "Devices", 1);
      DevicesFound(n, View());
    }

    /** The search for the end of the first component; none if it is over-long. */
    method ComponentEnd(name: CString) returns (end: nat, ok: bool)
      ensures ok ==> end == SlashAt(name) <= 32
      ensures ok <==> SlashAt(name) < 32 || (SlashAt(name) == 32 && |name| > 32)
    {
      end := 0;
      while At(name, end) != '/'
        invariant end <= 32 && end <= |name| && end <= SlashAt(name)
        decreases |name| - end
      {
        if end == 32 {
          return end, false;
        }
        if At(name, end) == '\0' {
          break;
        }
        end := end + 1;
      }
      assert end == SlashAt(name);
      return end, true;
    }

    /** The search in the list of a directory. */
    method FindChild(d: Id, name: CString) returns (r: Option<Id>)
      requires Linked() && Closed(View()) && d in objects
      ensures r == FirstMatch(objects, objects[d].children, name)
    {
      hide Matches, FirstMatch, Holds, Linked, Items;
      HeaderOf(d);
      forall c | c in Items(lists[d].cells) ensures c in objects && c in headers && headers[c].name == objects[c].name {
        HeaderOf(c);
      }
      r := lists[d].FindChild(headers, objects, name);
    }

    /** The two buffers of the resolver: the first component and what follows its '/'. */
    method CutName(path: CString) returns (objName: CString, remaining: CString, ok: bool)
      requires |Rest(path)| < 256
      ensures ok <==> SlashAt(path) < 32 || (SlashAt(path) == 32 && |path| > 32)
      ensures ok ==> objName == Split(path)[0] && |objName| <= 32 && remaining == Rest(path)
    {
      hide SlashAt;
      SplitStep(path);
      objName, remaining := "", "";
      var end;
      end, ok := ComponentEnd(path);
      if ok {
        var buffer := StrSlice(path, 0, end - 1, 32);
        objName := TextOf(buffer, path[..end]);
        var tail := if end < |path| then |path| else end;
        buffer := StrSlice(path, end + 1, tail, 256);
        remaining := TextOf(buffer, Rest(path));
      }
    }

    /** ResolveObjectName.  The 256-byte buffer must hold what follows the first '/'. */
    method ResolveObjectName(dir: Option<Id>, name: Option<CString>) returns (r: Option<Id>)
      requires Linked() && Closed(View()) && (dir.Some? ==> IsDirectory(View(), dir.value))
      requires name.Some? ==> |Rest(name.value)| < 256
      ensures r == if name.None? then None
                   else Walk(View(), if dir.Some? then dir.value else cwd, Split(name.value))
      decreases if name.Some? then |name.value| + 1 else 0, 1
    {
      if name.None? {
        return None;
      }
      hide FirstMatch, SlashAt, Split, Rest, Walk, Holds, Linked;
      var path := name.value;
      var start := if dir.Some? then dir.value else cwd;
      WalkStep(View(), start, path);
      var objName, remaining, ok := CutName(path);
      if !ok {
        return None;
      }
      r := FollowName(start, objName, remaining, path);
    }

    /** The resolver after the name was cut. */
    method FollowName(start: Id, objName: CString, remaining: CString, ghost path: CString) returns (r: Option<Id>)
      requires Linked() && Closed(View()) && IsDirectory(View(), start)
      requires objName == Split(path)[0] && |objName| <= 32 && remaining == Rest(path) && |Rest(path)| < 256
      requires SlashAt(path) < 32 || (SlashAt(path) == 32 && |path| > 32)
      ensures r == Walk(View(), start, Split(path))
      decreases |path| + 1, 0
    {
      hide FirstMatch, SlashAt, Clip, Split, Rest, Walk, Holds, Linked;
      WalkStep(View(), start, path);
      RestShrinks(path);
      SplitStep(path);
      var order := Strncmp(objName, ".", 32);
      ClipShort(objName, ".");
      if order == 0 {
        r := ResolveObjectName(if mayAccessRoot then Some(root) else None, Some(remaining));
        return;
      }
      var found := FindChild(start, objName);
      if found.Some? && remaining != "" {
        HeaderOf(found.value);
        if headers[found.value].kind == 1 {
          r := ResolveObjectName(found, Some(remaining));
          return;
        }
      }
      return found;
    }

    /** CreateDirectory: 32 bytes of the name are kept, and the new directory goes to the end of the
        parent's child list. */
    method CreateDirectory(parent: Id, name: CString, made: Id)
      requires Linked() && parent in objects && made !in objects
      modifies `objects, `headers, `lists, `owned, `cells, owned, cells
      ensures Linked() && Grown()
      ensures View() == WithChild(old(View()), parent, made, Object(Clip(name, 32), 1, []))
    {
      hide Holds, Linked, Items, Walk, FirstMatch, Matches;
      AddObject(made, Clip(name, 32), 1);
      AddChild(parent, made);
    }

    /** An object with a header and an empty list. */
    method AddObject(made: Id, name: CString, kind: int)
      requires Linked() && made !in objects
      modifies `objects, `headers, `lists, `owned
      ensures Linked() && Grown() && objects == old(objects)[made := Object(name, kind, [])]
    {
      hide Walk, FirstMatch, Clip, Matches, HeaderList.Linked;
      var list := new HeaderList(made);
      headers := headers[made := Header(name, kind)];
      lists, owned := lists[made := list], owned + {list};
      objects := objects[made := Object(name, kind, [])];
      assert Items(list.cells) == [];
      hide Items;
      forall d | d in objects ensures Holds(d) {
        if d != made {
          assert old(Holds(d));
          lists[d].StillLinked();
        }
      }
    }

    /** DirectoryAddChild on the list of a directory. */
    method AddChild(d: Id, child: Id)
      requires Linked() && d in objects
      modifies `objects, `cells, owned, cells
      ensures Linked() && Grown()
      ensures objects == old(objects)[d := old(objects)[d].(children := old(objects)[d].children + [child])]
    {
      hide Items, Walk, FirstMatch, Clip, Matches, HeaderList.Linked;
      assert Holds(d);
      var list := lists[d];
      list.CellsAreOwn();
      forall e | e in objects && e != d ensures lists[e] != list && forall c | c in lists[e].cells :: c !in list.cells {
        assert Holds(e);
        lists[e].CellsAreOwn();
      }
      list.AddChild(child);
      forall e | e in objects && e != d ensures lists[e].Linked() && lists[e].cells == old(lists[e].cells) {
        assert old(Holds(e));
        lists[e].StillLinked();
      }
      ghost var cell := list.cells[|list.cells| - 1];
      cells := cells + {cell};
      objects := objects[d := objects[d].(children := objects[d].children + [child])];
      forall e | e in objects ensures Holds(e) {
        assert old(Holds(e));
        if e == d {
          assert Items(lists[e].cells) == objects[e].children;
          assert forall c | c in lists[e].cells :: c in cells;
        } else {
          assert Items(lists[e].cells) == objects[e].children;
          assert forall c | c in lists[e].cells :: c in cells;
        }
      }
    }

    /** ChangeWorkingDirectory. */
    method ChangeWorkingDirectory(dir: Option<Id>, name: Option<CString>) returns (code: int)
      requires Linked() && Closed(View()) && (dir.Some? ==> IsDirectory(View(), dir.value))
      requires name.Some? ==> |Rest(name.value)| < 256
      modifies `cwd
      ensures var r := if name.None? then None
                       else Walk(old(View()), if dir.Some? then dir.value else old(cwd), Split(name.value));
              && code == (if r.Some? then 0 else -1) && cwd == (if r.Some? then r.value else old(cwd))
              && (Closed(View()) <==> r.None? || IsDirectory(View(), r.value))
    {
      var found := ResolveObjectName(dir, name);
      if found.Some? {
        cwd := found.value;
        return 0;
      }
      return -1;
    }
  }

  lemma ClipShort(a: string, b: string)
    requires |a| <= 32 && |b| <= 32
    ensures Clip(a, 32) == Clip(b, 32) <==> a == b
  {
  }

  lemma EmptyName(n: Namespace, d: Id)
    requires Closed(n) && IsDirectory(n, d)
    ensures Walk(n, d, [""]) == FirstMatch(n.objects, n.objects[d].children, "")
  {
  }

  /** The namespace at the start: the root with the empty directory "Devices". */
  ghost predicate Initialized(n: Namespace) {
    && Closed(n) && n.mayAccessRoot && n.root == n.cwd == 0 && n.objects.Keys == {0, 1}
    && Walk(n, n.cwd, [".", "Devices"]) == Some(1) && IsDirectory(n, 1) && n.objects[1].children == []
  }

  lemma DevicesFound(n: Namespace, n': Namespace)
    requires n == Namespace(map[0 := Object(".", 1, [])], 0, 0, true)
    requires n' == WithChild(n, 0, 1, Object(Clip("Devices", 32), 1, []))
    ensures Initialized(n')
  {
    var names := [".", "Devices"];
    assert names[1..] == ["Devices"] && names[1..][1..] == [];
    assert n'.objects[0].children == [1] && Matches(n'.objects[1], "Devices");
  }

  // ----- Adding a child -----

  function WithChild(n: Namespace, parent: Id, made: Id, o: Object): Namespace
    requires parent in n.objects
  {
    var p := n.objects[parent];
    n.(objects := n.objects[made := o][parent := p.(children := p.children + [made])])
  }

  lemma WithChildClosed(n: Namespace, parent: Id, made: Id, o: Object)
    requires Closed(n) && IsDirectory(n, parent) && made !in n.objects && o.children == []
    ensures Closed(WithChild(n, parent, made, o))
  {
  }

  lemma {:induction false} MatchAppended(objects: map<Id, Object>, objects': map<Id, Object>, children: seq<Id>,
                                         made: Id, name: CString)
    requires forall c | c in children :: c in objects && c in objects' && objects'[c].name == objects[c].name
    requires made in objects'
    ensures FirstMatch(objects', children + [made], name)
         == match FirstMatch(objects, children, name)
            case Some(c) => Some(c)
            case None => if Matches(objects'[made], name) then Some(made) else None
    ensures FirstMatch(objects', children, name) == FirstMatch(objects, children, name)
    decreases |children|
  {
    if children == [] {
      assert FirstMatch(objects', [made][1..], name) == None;
    } else {
      assert (children + [made])[1..] == children[1..] + [made];
      MatchAppended(objects, objects', children[1..], made, name);
    }
  }

  /** Matching depends on the first 32 characters only. */
  lemma {:induction false} MatchByPrefix(objects: map<Id, Object>, children: seq<Id>, name: CString, other: CString)
    requires (forall c | c in children :: c in objects) && Clip(name, 32) == Clip(other, 32)
    ensures FirstMatch(objects, children, name) == FirstMatch(objects, children, other)
    decreases |children|
  {
    if children != [] {
      MatchByPrefix(objects, children[1..], name, other);
    }
  }

  /** A child whose 32-character name prefix is already taken among its siblings never changes the
      result of any walk. */
  lemma {:induction false} DuplicateIsInvisible(n: Namespace, parent: Id, made: Id, o: Object, d: Id,
                                                names: seq<CString>)
    requires Closed(n) && IsDirectory(n, parent) && made !in n.objects && o.children == []
    requires FirstMatch(n.objects, n.objects[parent].children, o.name).Some?
    requires IsDirectory(n, d) && names != []
    ensures Closed(WithChild(n, parent, made, o))
    ensures Walk(WithChild(n, parent, made, o), d, names) == Walk(n, d, names)
    decreases |names|
  {
    var n' := WithChild(n, parent, made, o);
    WithChildClosed(n, parent, made, o);
    var name, rest := names[0], names[1..];
    SameMatch(n, parent, made, o, d, name);
    SameMatch(n, parent, made, o, RootFor(n), "");
    if |name| > 32 || (|name| == 32 && rest == []) {
    } else if name == "." {
      if rest != [] {
        DuplicateIsInvisible(n, parent, made, o, RootFor(n), rest);
      }
    } else {
      var c := FirstMatch(n.objects, n.objects[d].children, name);
      if c.Some? && rest != [] && rest != [""] && n.objects[c.value].kind == 1 {
        DuplicateIsInvisible(n, parent, made, o, c.value, rest);
      }
    }
  }

  lemma SameMatch(n: Namespace, parent: Id, made: Id, o: Object, d: Id, name: CString)
    requires Closed(n) && IsDirectory(n, parent) && made !in n.objects && o.children == []
    requires FirstMatch(n.objects, n.objects[parent].children, o.name).Some?
    requires d in n.objects
    ensures var n' := WithChild(n, parent, made, o);
            && Closed(n')
            && FirstMatch(n'.objects, n'.objects[d].children, name)
               == FirstMatch(n.objects, n.objects[d].children, name)
  {
    var n' := WithChild(n, parent, made, o);
    WithChildClosed(n, parent, made, o);
    MatchAppended(n.objects, n'.objects, n.objects[d].children, made, name);
    if d == parent && Matches(o, name) {
      MatchByPrefix(n.objects, n.objects[parent].children, name, o.name);
    }
  }

  /** A name that resolves keeps its meaning: a child added anywhere can only give meaning to names that
      had none. */
  lemma {:induction false} ResolvedStays(n: Namespace, parent: Id, made: Id, o: Object, d: Id, names: seq<CString>)
    requires Closed(n) && IsDirectory(n, parent) && made !in n.objects && o.children == []
    requires IsDirectory(n, d) && names != [] && Walk(n, d, names).Some?
    ensures Closed(WithChild(n, parent, made, o))
    ensures Walk(WithChild(n, parent, made, o), d, names) == Walk(n, d, names)
    decreases |names|
  {
    hide FirstMatch, Matches, WithChild;
    var name, rest := names[0], names[1..];
    WithChildClosed(n, parent, made, o);
    StillMatches(n, parent, made, o, d, name);
    StillMatches(n, parent, made, o, RootFor(n), "");
    if name == "." {
      if rest != [] {
        ResolvedStays(n, parent, made, o, RootFor(n), rest);
      }
    } else {
      var c := FirstMatch(n.objects, n.objects[d].children, name).value;
      if rest != [] && rest != [""] && n.objects[c].kind == 1 {
        ResolvedStays(n, parent, made, o, c, rest);
      }
    }
  }

  lemma StillMatches(n: Namespace, parent: Id, made: Id, o: Object, d: Id, name: CString)
    requires Closed(n) && IsDirectory(n, parent) && made !in n.objects && o.children == []
    requires d in n.objects
    ensures var n' := WithChild(n, parent, made, o);
            && Closed(n') && RootFor(n') == RootFor(n)
            && (forall c | c in n.objects :: c in n'.objects && n'.objects[c].kind == n.objects[c].kind)
            && (FirstMatch(n.objects, n.objects[d].children, name).Some? ==>
                  FirstMatch(n'.objects, n'.objects[d].children, name)
                      == FirstMatch(n.objects, n.objects[d].children, name))
  {
    hide FirstMatch, Matches;
    var n' := WithChild(n, parent, made, o);
    WithChildClosed(n, parent, made, o);
    MatchAppended(n.objects, n'.objects, n.objects[d].children, made, name);
  }

  /** One more component continues the walk from the directory reached. */
  lemma {:induction false} WalkExtends(n: Namespace, d: Id, names: seq<CString>, last: CString)
    requires Closed(n) && IsDirectory(n, d) && names != [] && "" !in names && names[|names| - 1] != "." && last != ""
    requires Walk(n, d, names).Some? && IsDirectory(n, Walk(n, d, names).value)
    ensures Walk(n, d, names + [last]) == Walk(n, Walk(n, d, names).value, [last])
    decreases |names|
  {
    var name, rest := names[0], names[1..];
    assert (names + [last])[1..] == rest + [last];
    if rest != [] {
      assert rest[0] in names;
      var c := if name == "." then Some(RootFor(n)) else FirstMatch(n.objects, n.objects[d].children, name);
      if IsDirectory(n, c.value) {
        WalkExtends(n, c.value, rest, last);
      }
    }
  }

  /** A directory created under a fresh short name is what the name then resolves to. */
  lemma CreatedIsFound(n: Namespace, parent: Id, made: Id, name: CString)
    requires Closed(n) && IsDirectory(n, parent) && made !in n.objects
    requires |name| < 32 && '/' !in name && name != "."
    requires FirstMatch(n.objects, n.objects[parent].children, name).None?
    ensures var n' := WithChild(n, parent, made, Object(Clip(name, 32), 1, []));
            Closed(n') && Walk(n', parent, Split(name)) == Some(made)
  {
    var o := Object(Clip(name, 32), 1, []);
    var n' := WithChild(n, parent, made, o);
    WithChildClosed(n, parent, made, o);
    MatchAppended(n.objects, n'.objects, n.objects[parent].children, made, name);
    assert Split(name) == [name];
  }
}
