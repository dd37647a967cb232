/** What a name means, without the walk: how it is cut at its slashes, where a leading "." takes it, whatever the
    working directory, and what a task without access to the root can reach. */
module NameLaws {
  import opened Prelude
  import opened CString
  import opened ObjectDirectory

  // ----- Cutting a name -----

  function Join(a: CString, b: CString): CString { a + "/" + b }

  lemma {:induction false} SlashAfter(a: CString, b: CString)
    requires '/' !in a
    ensures SlashAt(Join(a, b)) == |a|
  {
    if a != "" {
      SlashAfter(a[1..], b);
      assert Join(a, b)[1..] == Join(a[1..], b);
    }
  }

  lemma SplitJoin(a: CString, b: CString)
    requires '/' !in a
    ensures Split(Join(a, b)) == [a] + Split(b) && Rest(Join(a, b)) == b && |Join(a, b)| == |a| + 1 + |b|
  {
    SlashAfter(a, b);
    assert Join(a, b)[..|a|] == a && Join(a, b)[|a| + 1..] == b;
  }

  lemma NoSlash(a: CString)
    requires '/' !in a
    ensures Split(a) == [a]
  {
    assert SlashAt(a) == |a|;
  }

  /** The components with a slash between each two. */
  function JoinAll(names: seq<CString>): CString
    requires names != []
  {
    if |names| == 1 then names[0] else Join(names[0], JoinAll(names[1..]))
  }

  lemma CutAt(s: string, i: nat)
    requires i <= |s| && forall k | 0 <= k < i :: s[k] != '/'
    ensures '/' !in s[..i]
    ensures i < |s| && s[i] == '/' ==> s[..i] + "/" + s[i + 1..] == s
  {
    if i < |s| && s[i] == '/' {
      assert s == s[..i] + [s[i]] + s[i + 1..];
    }
  }

  lemma RestJoins(s: CString)
    ensures '/' !in s[..SlashAt(s)] && (SlashAt(s) == |s| ==> s[..SlashAt(s)] == s)
    ensures SlashAt(s) < |s| ==> Join(s[..SlashAt(s)], Rest(s)) == s
  {
    var i := SlashAt(s);
    hide SlashAt;
    CutAt(s, i);
  }

  /** A name is cut at every slash and nowhere else: its components have none, and joined they are the name. */
  lemma {:induction false} SplitMeaning(s: CString)
    ensures JoinAll(Split(s)) == s && forall name | name in Split(s) :: '/' !in name
    decreases |s|
  {
    hide Split, Rest, Join, SlashAt;
    SplitStep(s);
    RestJoins(s);
    var names := Split(s);
    assert names == [names[0]] + names[1..];
    if SlashAt(s) < |s| {
      SplitMeaning(Rest(s));
    }
  }

  /** And there is only one such way to cut it. */
  lemma {:induction false} SplitUnique(names: seq<CString>)
    requires names != [] && forall name | name in names :: '/' !in name
    ensures Split(JoinAll(names)) == names
    decreases |names|
  {
    assert names[0] in names;
    if |names| == 1 {
      NoSlash(names[0]);
    } else {
      SplitUnique(names[1..]);
      SplitJoin(names[0], JoinAll(names[1..]));
    }
  }

  /** The child found is the first whose first 32 characters are those of the name; none is found if none has. */
  lemma {:induction false} FirstMatchMeaning(objects: map<Id, Object>, children: seq<Id>, name: CString)
    requires forall c | c in children :: c in objects
    ensures match FirstMatch(objects, children, name)
            case None => forall i | 0 <= i < |children| :: Clip(objects[children[i]].name, 32) != Clip(name, 32)
            case Some(c) => exists i | 0 <= i < |children| && children[i] == c ::
              && Clip(objects[c].name, 32) == Clip(name, 32)
              && forall j | 0 <= j < i :: Clip(objects[children[j]].name, 32) != Clip(name, 32)
    decreases |children|
  {
    hide Clip;
    if children != [] && !Matches(objects[children[0]], name) {
      FirstMatchMeaning(objects, children[1..], name);
      var r := FirstMatch(objects, children[1..], name);
      if r.Some? {
        var i :| 0 <= i < |children[1..]| && children[1..][i] == r.value
          && forall j | 0 <= j < i :: Clip(objects[children[1..][j]].name, 32) != Clip(name, 32);
        assert children[i + 1] == r.value;
        assert forall j | 0 <= j < i + 1 ::
            children[j] == if j == 0 then children[0] else children[1..][j - 1];
      } else {
        assert forall j | 0 <= j < |children| :: children[j] == if j == 0 then children[0] else children[1..][j - 1];
      }
    }
  }

  // ----- Where "." leads -----

  /** A task with access to the root starts there again at every ".", from wherever it is. */
  lemma DotIsRoot(n: Namespace, d: Id, rest: seq<CString>)
    requires Closed(n) && IsDirectory(n, d) && n.mayAccessRoot && rest != []
    ensures Walk(n, d, ["."] + rest) == Walk(n, n.root, rest)
  {
    assert (["."] + rest)[1..] == rest;
  }

  /** A task without access starts at its working directory. */
  lemma DotIsCwd(n: Namespace, d: Id, rest: seq<CString>)
    requires Closed(n) && IsDirectory(n, d) && !n.mayAccessRoot && rest != []
    ensures Walk(n, d, ["."] + rest) == Walk(n, n.cwd, rest)
  {
    assert (["."] + rest)[1..] == rest;
  }

  /** With access, where a walk ends does not depend on the working directory. */
  lemma {:induction false} CwdIsIrrelevant(n: Namespace, cwd: Id, d: Id, names: seq<CString>)
    requires Closed(n) && IsDirectory(n, cwd) && IsDirectory(n, d) && n.mayAccessRoot && names != []
    ensures Closed(n.(cwd := cwd)) && Walk(n.(cwd := cwd), d, names) == Walk(n, d, names)
    decreases |names|
  {
    var n' := n.(cwd := cwd);
    var name, rest := names[0], names[1..];
    if rest != [] {
      CwdIsIrrelevant(n, cwd, n.root, rest);
      var c := FirstMatch(n.objects, n.objects[d].children, name);
      if c.Some? && n.objects[c.value].kind == 1 {
        CwdIsIrrelevant(n, cwd, c.value, rest);
      }
    }
  }

  /** A name that begins with "./" means the same to a task with access in every working directory and from every
      directory: what the rest of it means from the root. */
  lemma AbsoluteName(n: Namespace, cwd: Id, d: Id, rest: CString)
    requires Closed(n) && IsDirectory(n, cwd) && IsDirectory(n, d) && n.mayAccessRoot
    ensures Closed(n.(cwd := cwd)) && Walk(n.(cwd := cwd), d, Split(Join(".", rest))) == Walk(n, n.root, Split(rest))
  {
    hide Walk, Split, Join, SlashAt;
    SplitJoin(".", rest);
    DotIsRoot(n, d, Split(rest));
    CwdIsIrrelevant(n, cwd, d, Split(Join(".", rest)));
  }

  /** A task that changes to "./Devices" still finds "./Devices"; without access to the root it would not. */
  lemma DevicesAfterChange(n: Namespace)
    requires Initialized(n)
    ensures var n' := n.(cwd := 1);
            && Closed(n') && Walk(n', n'.cwd, [".", "Devices"]) == Some(1)
            && Walk(n'.(mayAccessRoot := false), n'.cwd, [".", "Devices"]) == None
  {
    hide SlashAt;
    CwdIsIrrelevant(n, 1, 1, [".", "Devices"]);
    DotIsRoot(n, 1, ["Devices"]);
    DotIsRoot(n, 0, ["Devices"]);
    DotIsCwd(n.(cwd := 1, mayAccessRoot := false), 1, ["Devices"]);
    assert [".", "Devices"] == ["."] + ["Devices"];
    NothingInside(n.(cwd := 1, mayAccessRoot := false), 1, "Devices");
  }

  lemma NothingInside(n: Namespace, d: Id, name: CString)
    requires Closed(n) && IsDirectory(n, d) && n.objects[d].children == [] && name != "."
    ensures Walk(n, d, [name]) == None
  {
  }

  // ----- Limits -----

  /** A component longer than 32 characters is never found, one of exactly 32 not at the end of a name. */
  lemma OverlongFails(n: Namespace, d: Id, name: CString, rest: seq<CString>)
    requires Closed(n) && IsDirectory(n, d) && (|name| > 32 || (|name| == 32 && rest == []))
    ensures Walk(n, d, [name] + rest) == None
  {
    assert ([name] + rest)[1..] == rest;
  }

  /** A slash at the end changes nothing. */
  lemma TrailingSlash(n: Namespace, d: Id, name: CString)
    requires Closed(n) && IsDirectory(n, d) && name != "." && |name| < 32
    ensures Walk(n, d, [name, ""]) == Walk(n, d, [name])
  {
    assert [name, ""][1..] == [""] && [name][1..] == [];
  }

  /** "." alone is not the root but a child of it without a name. */
  lemma DotAlone(n: Namespace, d: Id)
    requires Closed(n) && IsDirectory(n, d) && n.mayAccessRoot
    requires forall c | c in n.objects[n.root].children :: n.objects[c].name != ""
    ensures Walk(n, d, ["."]) == None
  {
    FirstMatchMeaning(n.objects, n.objects[n.root].children, "");
  }

  // ----- What can be reached -----

  /** Each of these objects is a child of the one before it. */
  ghost predicate IsChain(n: Namespace, chain: seq<Id>) {
    && chain != [] && (forall c | c in chain :: c in n.objects)
    && forall i | 0 <= i < |chain| - 1 :: chain[i + 1] in n.objects[chain[i]].children
  }

  /** x is top or lies below it. */
  ghost predicate Below(n: Namespace, top: Id, x: Id) {
    exists chain: seq<Id> :: IsChain(n, chain) && chain[0] == top && chain[|chain| - 1] == x
  }

  lemma BelowSelf(n: Namespace, top: Id)
    requires top in n.objects
    ensures Below(n, top, top)
  {
    assert IsChain(n, [top]);
  }

  lemma BelowChild(n: Namespace, top: Id, d: Id, c: Id)
    requires Closed(n) && Below(n, top, d) && d in n.objects && c in n.objects[d].children
    ensures Below(n, top, c)
  {
    var chain :| IsChain(n, chain) && chain[0] == top && chain[|chain| - 1] == d;
    assert IsChain(n, chain + [c]) && (chain + [c])[0] == top && (chain + [c])[|chain|] == c;
  }

  /** A walk that starts below `top` stays there, if every "." leads to a place below it. */
  lemma {:induction false} WalkStaysBelow(n: Namespace, top: Id, d: Id, names: seq<CString>)
    requires Closed(n) && IsDirectory(n, d) && names != [] && Below(n, top, d)
    requires Below(n, top, if n.mayAccessRoot then n.root else n.cwd)
    ensures Walk(n, d, names).Some? ==> Below(n, top, Walk(n, d, names).value)
    decreases |names|
  {
    hide Below, Matches, FirstMatch;
    var name, rest := names[0], names[1..];
    var again := if n.mayAccessRoot then n.root else n.cwd;
    if name == "." {
      if rest != [] {
        WalkStaysBelow(n, top, again, rest);
      } else if FirstMatch(n.objects, n.objects[again].children, "").Some? {
        BelowChild(n, top, again, FirstMatch(n.objects, n.objects[again].children, "").value);
      }
    } else {
      var c := FirstMatch(n.objects, n.objects[d].children, name);
      if c.Some? {
        BelowChild(n, top, d, c.value);
        if rest != [] && n.objects[c.value].kind == 1 {
          WalkStaysBelow(n, top, c.value, rest);
        }
      }
    }
  }

  /** A task without access to the root reaches by name, from its working directory, nothing but what lies below
      that, whatever dots the name has. */
  lemma NoAccessStaysInside(n: Namespace, names: seq<CString>)
    requires Closed(n) && !n.mayAccessRoot && names != []
    ensures Walk(n, n.cwd, names).Some? ==> Below(n, n.cwd, Walk(n, n.cwd, names).value)
  {
    hide Below;
    BelowSelf(n, n.cwd);
    WalkStaysBelow(n, n.cwd, n.cwd, names);
  }
}
