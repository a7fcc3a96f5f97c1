/**
 * The file-system program: a tree of directories and files held in memory, addressed by `/`-separated
 * paths that are walked part by part (`.` stays, `..` goes up, a leading empty part goes to the root),
 * with create, delete, read and write operations, and a save format kept in the block's storage string.
 *
 * The objects are referenced by id: `Objects` maps each id to its node, a node names its parent by id and
 * files its children by name. An object removed from its parent stays in the map, still naming that
 * parent, exactly as a removed C# object keeps its `Parent` reference.
 */
module FileSystemTrees {
  import opened Wrappers
  import opened Ints
  import opened Errors
  import opened Seqs
  import opened Text

  // ---------------------------------------------------------------------------------------------
  // Objects

  datatype Kind = Directory | File

  /** A directory (its children by name) or a file (its content). */
  datatype Node = Node(kind: Kind, name: string, parent: Option<nat>, children: map<string, nat>, content: string)

  type Objects = map<nat, Node>

  /** The root directory, named `""` and without a parent. */
  const RootId: nat := 0

  /** The path separator. */
  const Separator: char := '/'

  /** The character `TraversePath` refuses in a path. */
  const Bar: char := '|'

  /** A name the program gives a new object: a trimmed path part other than `""`, `.` and `..`, which
      holds neither the separator nor `|`. */
  predicate NameOk(n: string) {
    PartOk(n) && n != [] && n != "." && n != ".."
  }

  /** A part of a path without `|`, split at `/` and trimmed. */
  predicate PartOk(p: string) {
    Separator !in p && Bar !in p && (p == [] || (!IsWhiteSpace(p[0]) && !IsWhiteSpace(p[|p| - 1])))
  }

  /** Every part is a valid part. */
  predicate AllParts(parts: seq<string>) {
    forall i :: 0 <= i < |parts| ==> PartOk(parts[i])
  }

  /** Every part is a valid name (and so a valid part). */
  predicate AllNames(parts: seq<string>) {
    AllParts(parts) && forall i :: 0 <= i < |parts| ==> NameOk(parts[i])
  }

  /** Valid names are valid parts. */
  lemma NamesAreParts(parts: seq<string>)
    requires AllNames(parts)
    ensures AllParts(parts)
  {
    forall i | 0 <= i < |parts| ensures PartOk(parts[i]) {
      assert NameOk(parts[i]);
    }
  }

  /** An object other than the root has an older directory as its parent and a valid name. */
  predicate ParentOk(o: Objects, id: nat)
    requires id in o
  {
    var p := o[id].parent;
    p.Some? && p.value in o && p.value < id && o[p.value].kind == Directory && NameOk(o[id].name)
  }

  /** A child filed under `k` names its directory as parent and `k` as its name. */
  predicate ChildOk(o: Objects, id: nat, k: string)
    requires id in o && k in o[id].children
  {
    var c := o[id].children[k];
    c in o && o[c].parent == Some(id) && o[c].name == k
  }

  predicate WellFormed(o: Objects) {
    && RootId in o && o[RootId].kind == Directory && o[RootId].parent == None
    && (forall id {:trigger ParentOk(o, id)} :: id in o && id != RootId ==> ParentOk(o, id))
    && (forall id :: id in o && o[id].kind == File ==> o[id].children == map[])
    && (forall id, k {:trigger ChildOk(o, id, k)} :: id in o && k in o[id].children ==> ChildOk(o, id, k))
  }

  /** Only the root has no parent. */
  lemma ParentlessIsRoot(o: Objects, id: nat)
    requires WellFormed(o) && id in o
    ensures o[id].parent.None? <==> id == RootId
  {
    if id != RootId {
      assert ParentOk(o, id);
    }
  }

  /** The object is filed in its parent under its name. */
  predicate Attached(o: Objects, id: nat)
    requires WellFormed(o) && id in o && id != RootId
  {
    assert ParentOk(o, id);
    var p := o[id].parent.value;
    o[id].name in o[p].children && o[p].children[o[id].name] == id
  }

  /** `x` lies in the tree under `top` (or is `top`): each object on the way up is filed in its parent. */
  predicate Under(o: Objects, x: nat, top: nat)
    requires WellFormed(o) && x in o
    decreases x
  {
    x == top || (x != RootId && x > top && Attached(o, x) && (assert ParentOk(o, x); Under(o, o[x].parent.value, top)))
  }

  /** No object files a child under the empty name. */
  lemma NoEmptyKey(o: Objects, id: nat)
    requires WellFormed(o) && id in o
    ensures "" !in o[id].children
  {
    forall k | k in o[id].children
      ensures k != ""
    {
      assert ChildOk(o, id, k);
      assert ParentOk(o, o[id].children[k]);
    }
  }

  // ---------------------------------------------------------------------------------------------
  // `TraversePath`

  /** What one accepted part does: `.` stays, `..` goes to the parent (nothing above the root), any other
      part goes to the child of that name, if there is one. */
  function Step(o: Objects, at: nat, part: string): (r: Option<nat>)
    requires WellFormed(o) && at in o
    ensures r.Some? ==> r.value in o
  {
    if part == "." then Some(at)
    else if part == ".." then (if at == RootId then None else assert ParentOk(o, at); o[at].parent)
    else if part in o[at].children then (assert ChildOk(o, at, part); Some(o[at].children[part]))
    else None
  }

  /** The outcome of a traversal: the object reached (`None` for `null`), and the calls the callback
      received, in order. */
  datatype Walk = Walk(target: Option<nat>, offers: seq<(nat, string)>)

  /** The loop of `TraversePath` over the remaining (already trimmed) parts. Each part is offered to the
      callback; a rejected part is skipped; the first accepted part goes to the root while `toRoot` is
      set; the walk stops at the first `null`. */
  function Traverse(o: Objects, at: nat, parts: seq<string>, toRoot: bool, accept: (nat, string) -> bool): (w: Walk)
    requires WellFormed(o) && at in o
    ensures w.target.Some? ==> w.target.value in o
    ensures |w.offers| <= |parts|
    ensures w.target.None? ==> w.offers != []
    ensures parts != [] ==> w.offers != [] && w.offers[0] == (at, parts[0])
    ensures forall j :: 0 <= j < |w.offers| ==> w.offers[j].1 in parts
    ensures parts == [] ==> w == Walk(Some(at), [])
    decreases |parts|
  {
    if parts == [] then Walk(Some(at), [])
    else
      var part := parts[0];
      var accepted := accept(at, part);
      var next := if !accepted then Some(at) else if toRoot then Some(RootId) else Step(o, at, part);
      if next.None? then Walk(None, [(at, part)])
      else
        var w := Traverse(o, next.value, parts[1..], toRoot && !accepted, accept);
        Walk(w.target, [(at, part)] + w.offers)
  }

  const IllegalPathCharacter := "Illegal path character \"|\""

  /** `TraversePath` from `begin`: a `null` path and a path with `|` throw; otherwise the path is split at
      `/` and walked, starting at the root exactly when its first part is blank. */
  function TraversePath(o: Objects, begin: nat, path: NullableString, accept: (nat, string) -> bool): (r: Result<Walk, Exception>)
    requires WellFormed(o) && begin in o
    ensures r.Err? <==> path.None? || Bar in path.value
    ensures path.None? ==> r == Err(ArgumentNullException("path"))
    ensures path.Some? && Bar in path.value ==> r == Err(ArgumentException(IllegalPathCharacter))
    ensures r.Ok? ==> r.value.offers != [] && r.value.offers[0].0 == begin
  {
    if path.None? then Err(ArgumentNullException("path"))
    else if Bar in path.value then Err(ArgumentException(IllegalPathCharacter))
    else
      var parts := TrimAll(Split(path.value, Separator));
      Ok(Traverse(o, begin, parts, parts[0] == "", accept))
  }

  /** Each part trimmed. */
  function TrimAll(parts: seq<string>): (r: seq<string>)
    ensures |r| == |parts|
    ensures forall i :: 0 <= i < |parts| ==> r[i] == Trim(parts[i])
  {
    if parts == [] then [] else [Trim(parts[0])] + TrimAll(parts[1..])
  }

  /** The callback of `GetRelativeFileSystemObject`, which accepts every part. */
  const AcceptAll: (nat, string) -> bool := (x: nat, part: string) => true

  /** The callback accepted `offer`, and the part it offered leads nowhere from where it was offered. */
  predicate FailsAt(o: Objects, offer: (nat, string), accept: (nat, string) -> bool)
    requires WellFormed(o)
  {
    offer.0 in o && accept(offer.0, offer.1) && Step(o, offer.0, offer.1).None?
  }

  /** When the walk fails, it fails at the last part offered: that part was accepted, and it does not lead
      anywhere. */
  lemma {:induction false} TraverseFailsAtLast(o: Objects, at: nat, parts: seq<string>, toRoot: bool, accept: (nat, string) -> bool)
    requires WellFormed(o) && at in o
    requires Traverse(o, at, parts, toRoot, accept).target.None?
    ensures FailsAt(o, Last(Traverse(o, at, parts, toRoot, accept).offers), accept)
    decreases |parts|
  {
    var w := Traverse(o, at, parts, toRoot, accept);
    var part := parts[0];
    var accepted := accept(at, part);
    var next := if !accepted then Some(at) else if toRoot then Some(RootId) else Step(o, at, part);
    if next.Some? {
      var rest := Traverse(o, next.value, parts[1..], toRoot && !accepted, accept);
      assert w.offers == [(at, part)] + rest.offers;
      TraverseFailsAtLast(o, next.value, parts[1..], toRoot && !accepted, accept);
      LastOfCons((at, part), rest.offers);
    } else {
      assert w.offers == [(at, part)];
    }
  }

  function Last<T>(s: seq<T>): T
    requires s != []
  {
    s[|s| - 1]
  }

  lemma LastOfCons<T>(x: T, s: seq<T>)
    requires s != []
    ensures Last([x] + s) == Last(s)
  {
  }

  /** With every part accepted and the root flag spent, walking two pieces of a path one after the other
      is walking the whole path. */
  lemma {:induction false} TraverseAppend(o: Objects, at: nat, a: seq<string>, b: seq<string>)
    requires WellFormed(o) && at in o
    requires Traverse(o, at, a, false, AcceptAll).target.Some?
    ensures Traverse(o, at, a + b, false, AcceptAll).target
         == Traverse(o, Traverse(o, at, a, false, AcceptAll).target.value, b, false, AcceptAll).target
    decreases |a|
  {
    if a != [] {
      assert (a + b)[1..] == a[1..] + b;
      assert (a + b)[0] == a[0];
      var next := Step(o, at, a[0]);
      TraverseAppend(o, next.value, a[1..], b);
    } else {
      assert a + b == b;
    }
  }

  // ---------------------------------------------------------------------------------------------
  // `FullPath`

  /** The names from the root down to `id`, the root's own empty name excluded. */
  function Names(o: Objects, id: nat): (r: seq<string>)
    requires WellFormed(o) && id in o
    ensures forall i :: 0 <= i < |r| ==> NameOk(r[i])
    ensures (id == RootId) == (r == [])
    decreases id
  {
    if id == RootId then []
    else
      assert ParentOk(o, id);
      Names(o, o[id].parent.value) + [o[id].name]
  }

  /** `"/" + name` for each ancestor below the root, from the root down: empty only at the root, and
      otherwise starting with `/`; never holding `|`. */
  function NamesPath(o: Objects, id: nat): (s: string)
    requires WellFormed(o) && id in o
    ensures (s == []) == (id == RootId)
    ensures s != [] ==> s[0] == Separator
    ensures Bar !in s
    decreases id
  {
    if id == RootId then ""
    else
      assert ParentOk(o, id);
      var init := NamesPath(o, o[id].parent.value);
      assert Bar !in [Separator];
      init + [Separator] + o[id].name
  }

  /** `FullPath`: `/` for the root, otherwise the names of the ancestors, each after a `/`. */
  function FullPath(o: Objects, id: nat): (s: string)
    requires WellFormed(o) && id in o
    ensures s != [] && s[0] == Separator && Bar !in s
    ensures (s == [Separator]) == (id == RootId)
  {
    ParentlessIsRoot(o, id);
    if o[id].parent.None? then [Separator]
    else
      var s := NamesPath(o, id);
      assert ParentOk(o, id);
      assert s == NamesPath(o, o[id].parent.value) + [Separator] + o[id].name;
      assert |s| > 1;
      s
  }

  /** The path below the root is the names joined with `/` behind an empty first part. */
  lemma {:induction false} NamesPathJoin(o: Objects, id: nat)
    requires WellFormed(o) && id in o
    ensures NamesPath(o, id) == Join([""] + Names(o, id), [Separator])
    decreases id
  {
    if id != RootId {
      assert ParentOk(o, id);
      var p := o[id].parent.value;
      NamesPathJoin(o, p);
      assert [""] + Names(o, id) == ([""] + Names(o, p)) + [o[id].name];
      JoinSnoc([""] + Names(o, p), o[id].name, [Separator]);
    }
  }

  /** Below the root, `FullPath` splits at `/` into an empty part followed by the names from the root down. */
  lemma FullPathSplits(o: Objects, id: nat)
    requires WellFormed(o) && id in o && id != RootId
    ensures Split(FullPath(o, id), Separator) == [""] + Names(o, id)
  {
    var parts := [""] + Names(o, id);
    forall i | 0 <= i < |parts|
      ensures Separator !in parts[i]
    {
      if i > 0 {
        assert parts[i] == Names(o, id)[i - 1];
      }
    }
    NamesPathJoin(o, id);
    assert FullPath(o, id) == Join(parts, [Separator]);
    SplitJoin(parts, Separator);
  }

  /** Walking the names of an object in the tree from the root leads to that object. */
  lemma {:induction false} WalkNames(o: Objects, id: nat)
    requires WellFormed(o) && id in o && Under(o, id, RootId)
    ensures Traverse(o, RootId, Names(o, id), false, AcceptAll).target == Some(id)
    decreases id
  {
    if id != RootId {
      assert ParentOk(o, id);
      var p := o[id].parent.value;
      var name := o[id].name;
      WalkNames(o, p);
      TraverseAppend(o, RootId, Names(o, p), [name]);
      assert Step(o, p, name) == Some(id);
    }
  }

  /** `FullPath` round trip: from any start, the full path of an object in the tree below the root leads
      back to it. */
  lemma FullPathResolves(o: Objects, begin: nat, id: nat)
    requires WellFormed(o) && begin in o && id in o && id != RootId && Under(o, id, RootId)
    ensures TraversePath(o, begin, Some(FullPath(o, id)), AcceptAll) == Ok(Traverse(o, begin, [""] + Names(o, id), true, AcceptAll))
    ensures TraversePath(o, begin, Some(FullPath(o, id)), AcceptAll).value.target == Some(id)
  {
    FullPathSplits(o, id);
    var parts := [""] + Names(o, id);
    TrimNames(parts);
    assert parts[1..] == Names(o, id);
    WalkNames(o, id);
  }

  /** Parts that are names or empty are their own trimmed forms. */
  lemma TrimNames(parts: seq<string>)
    requires forall i :: 0 <= i < |parts| ==> parts[i] == [] || NameOk(parts[i])
    ensures TrimAll(parts) == parts
  {
    var r := TrimAll(parts);
    forall i | 0 <= i < |parts| ensures r[i] == parts[i] {
      TrimName(parts[i]);
    }
  }

  /** A name, and the empty part, are their own trimmed forms. */
  lemma TrimName(n: string)
    requires n == [] || NameOk(n)
    ensures Trim(n) == n
  {
    if n != [] {
      assert PartOk(n);
      TrimKeepsEnds(n);
    }
  }

  /** The root's own full path does not resolve: `/` splits into two empty parts, the first goes to the
      root and the second asks the root for a child named `""`. */
  lemma RootPathDoesNotResolve(o: Objects, begin: nat)
    requires WellFormed(o) && begin in o
    ensures TraversePath(o, begin, Some(FullPath(o, RootId)), AcceptAll).value.target == None
  {
    var parts := ["", ""];
    SplitJoin(parts, Separator);
    assert Join(parts, [Separator]) == [Separator];
    TrimNames(parts);
    NoEmptyKey(o, RootId);
    assert Step(o, RootId, "") == None;
    assert Traverse(o, RootId, parts[1..], false, AcceptAll).target == None;
  }

  // ---------------------------------------------------------------------------------------------
  // Path parts

  /** Every character of a part is a character of the joined text. */
  lemma {:induction false} JoinHasParts(parts: seq<string>, sep: string, i: nat, c: char)
    requires i < |parts| && c in parts[i]
    ensures c in Join(parts, sep)
  {
    if |parts| > 1 {
      if i > 0 {
        JoinHasParts(parts[1..], sep, i - 1, c);
      }
      assert Join(parts, sep) == parts[0] + sep + Join(parts[1..], sep);
    }
  }

  /** The trimmed parts of a path without `|` are all valid parts. */
  lemma PathParts(path: string)
    requires Bar !in path
    ensures AllParts(TrimAll(Split(path, Separator)))
  {
    var split := Split(path, Separator);
    forall i | 0 <= i < |split|
      ensures PartOk(Trim(split[i]))
    {
      if Bar in split[i] {
        JoinHasParts(split, [Separator], i, Bar);
      }
      TrimmedPart(split[i]);
    }
  }

  /** Trimming a piece without `/` or `|` gives a valid part. */
  lemma TrimmedPart(s: string)
    requires Separator !in s && Bar !in s
    ensures PartOk(Trim(s))
  {
    var t := Trim(s);
    var a := Lead(s, IsWhiteSpace);
    assert t == s[a..a + |t|];
    assert forall j :: 0 <= j < |t| ==> t[j] == s[a + j];
  }

  /** A valid part that is not `""`, `.` or `..` is a valid name. */
  lemma PartName(p: string)
    requires PartOk(p) && p != "" && p != "." && p != ".."
    ensures NameOk(p)
  {
  }

  // ---------------------------------------------------------------------------------------------
  // Adding objects

  /** The map is well formed and every id in it is below `next`, the id the next new object gets. */
  predicate Fresh(o: Objects, next: nat) {
    WellFormed(o) && forall x :: x in o ==> x < next
  }

  /** A new object `id` of kind `kind` named `name`, filed under that name in directory `dir`. */
  function AddChild(o: Objects, dir: nat, name: string, id: nat, kind: Kind): Objects
    requires dir in o
  {
    o[id := Node(kind, name, Some(dir), map[], "")][dir := o[dir].(children := o[dir].children[name := id])]
  }

  /** `n2` is `n1` with at most some children added. */
  predicate KeepsNode(n1: Node, n2: Node) {
    && n2.kind == n1.kind && n2.name == n1.name && n2.parent == n1.parent && n2.content == n1.content
    && forall k :: k in n1.children ==> k in n2.children && n2.children[k] == n1.children[k]
  }

  /** No object of `o1` is lost or changed, except for children added: no existing child is replaced. */
  predicate Grows(o1: Objects, o2: Objects) {
    forall x :: x in o1 ==> x in o2 && KeepsNode(o1[x], o2[x])
  }

  /** A child filed before is still filed, under the same name, after growing. */
  lemma GrowsKeepsChild(o1: Objects, o2: Objects, x: nat, k: string)
    requires Grows(o1, o2) && x in o1 && k in o1[x].children
    ensures x in o2 && k in o2[x].children && o2[x].children[k] == o1[x].children[k]
  {
    assert KeepsNode(o1[x], o2[x]);
  }

  lemma GrowsTransitive(o1: Objects, o2: Objects, o3: Objects)
    requires Grows(o1, o2) && Grows(o2, o3)
    ensures Grows(o1, o3)
  {
    forall x | x in o1
      ensures x in o3 && KeepsNode(o1[x], o3[x])
    {
      assert KeepsNode(o1[x], o2[x]) && KeepsNode(o2[x], o3[x]);
    }
  }

  /** Filing a fresh object with a valid name under a free key of a directory keeps the map well formed,
      and only adds. */
  lemma AddChildFresh(o: Objects, next: nat, dir: nat, name: string, kind: Kind)
    requires Fresh(o, next) && dir in o && o[dir].kind == Directory
    requires NameOk(name) && name !in o[dir].children
    ensures Fresh(AddChild(o, dir, name, next, kind), next + 1)
    ensures Grows(o, AddChild(o, dir, name, next, kind))
  {
    AddChildParents(o, next, dir, name, kind);
    AddChildChildren(o, next, dir, name, kind);
    AddChildGrows(o, next, dir, name, kind);
    var o2 := AddChild(o, dir, name, next, kind);
    assert forall x :: x in o2 ==> x < next + 1;
    assert o2[RootId].kind == Directory && o2[RootId].parent == None;
    assert forall x :: x in o2 && o2[x].kind == File ==> o2[x].children == map[];
  }

  lemma AddChildGrows(o: Objects, next: nat, dir: nat, name: string, kind: Kind)
    requires Fresh(o, next) && dir in o && name !in o[dir].children
    ensures Grows(o, AddChild(o, dir, name, next, kind))
  {
    var o2 := AddChild(o, dir, name, next, kind);
    forall x | x in o
      ensures x in o2 && KeepsNode(o[x], o2[x])
    {
      assert x != next;
    }
  }

  lemma AddChildParents(o: Objects, next: nat, dir: nat, name: string, kind: Kind)
    requires Fresh(o, next) && dir in o && o[dir].kind == Directory && NameOk(name)
    ensures forall x :: x in AddChild(o, dir, name, next, kind) && x != RootId ==> ParentOk(AddChild(o, dir, name, next, kind), x)
  {
    var o2 := AddChild(o, dir, name, next, kind);
    forall x | x in o2 && x != RootId
      ensures ParentOk(o2, x)
    {
      if x != next {
        assert ParentOk(o, x);
      }
    }
  }

  lemma AddChildChildren(o: Objects, next: nat, dir: nat, name: string, kind: Kind)
    requires Fresh(o, next) && dir in o && o[dir].kind == Directory && name !in o[dir].children
    ensures forall x, k :: x in AddChild(o, dir, name, next, kind) && k in AddChild(o, dir, name, next, kind)[x].children ==>
              ChildOk(AddChild(o, dir, name, next, kind), x, k)
  {
    var o2 := AddChild(o, dir, name, next, kind);
    forall x, k | x in o2 && k in o2[x].children
      ensures ChildOk(o2, x, k)
    {
      if x != dir || k != name {
        assert ChildOk(o, x, k);
      }
    }
  }

  // ---------------------------------------------------------------------------------------------
  // `Directory.CreateDirectory`

  /** The state after `CreateDirectory`, and the object it returns (`None` for `null`). */
  datatype Made = Made(objects: Objects, nextId: nat, target: Option<nat>)

  /** The callback of `CreateDirectory` creates `part` in `at` when `at` is a directory without a child
      of that name, and `part` is not `""`, `.` or `..`. */
  predicate CreatesAt(o: Objects, at: nat, part: string)
    requires at in o
  {
    o[at].kind == Directory && part != "" && part != "." && part != ".." && part !in o[at].children
  }

  /** The callback accepts `part` at a directory, unless `part` names an existing child that is not a
      directory. */
  predicate AcceptsAt(o: Objects, at: nat, part: string)
    requires WellFormed(o) && at in o
  {
    && o[at].kind == Directory
    && (part == "" || part == "." || part == ".." || part !in o[at].children
        || (assert ChildOk(o, at, part); o[o[at].children[part]].kind == Directory))
  }

  /** The state after the callback of `CreateDirectory` has seen `part` at `at`. */
  function CallbackState(o: Objects, next: nat, at: nat, part: string): (r: (Objects, nat))
    requires Fresh(o, next) && at in o && PartOk(part)
    ensures Fresh(r.0, r.1) && r.1 >= next && Grows(o, r.0)
    ensures forall x :: x in r.0 && x !in o ==> r.0[x].kind == Directory
  {
    if CreatesAt(o, at, part) then
      PartName(part);
      AddChildFresh(o, next, at, part, Directory);
      (AddChild(o, at, part, next, Directory), next + 1)
    else (o, next)
  }

  /** Where the walk of `CreateDirectory` goes after `part`: a rejected part stays, the root flag goes to
      the root, and otherwise the part is stepped in the state the callback left. */
  function MakeStep(o: Objects, next: nat, at: nat, part: string, toRoot: bool): (r: Option<nat>)
    requires Fresh(o, next) && at in o && o[at].kind == Directory && PartOk(part)
    ensures var o1 := CallbackState(o, next, at, part).0;
      r.Some? ==> r.value in o1 && o1[r.value].kind == Directory
  {
    var o1 := CallbackState(o, next, at, part).0;
    assert KeepsNode(o[at], o1[at]);
    if !AcceptsAt(o, at, part) then Some(at)
    else if toRoot then Some(RootId)
    else
      assert at != RootId ==> ParentOk(o1, at);
      assert part in o[at].children ==>
        ChildOk(o, at, part) && KeepsNode(o[o[at].children[part]], o1[o[at].children[part]]);
      assert part in o1[at].children ==> ChildOk(o1, at, part);
      assert part in o1[at].children && part !in o[at].children ==> o1[at].children[part] !in o;
      NoEmptyKey(o1, at);
      Step(o1, at, part)
  }

  /** `CreateDirectory`: the traversal of `TraversePath` over the remaining trimmed parts, with the
      callback creating each missing directory just before the walk steps into it. Rejected parts (a
      file in the way) are skipped. */
  function MakeDirectories(o: Objects, next: nat, at: nat, parts: seq<string>, toRoot: bool): Made
    requires Fresh(o, next) && at in o && o[at].kind == Directory
    requires AllParts(parts)
    decreases |parts|
  {
    if parts == [] then Made(o, next, Some(at))
    else
      var part := parts[0];
      var (o1, next1) := CallbackState(o, next, at, part);
      var step := MakeStep(o, next, at, part, toRoot);
      if step.None? then Made(o1, next1, None)
      else MakeDirectories(o1, next1, step.value, parts[1..], toRoot && !AcceptsAt(o, at, part))
  }

  /** `CreateDirectory` keeps the objects well formed and the ids fresh, only adds to what exists, adds
      only directories, and returns a directory if anything. */
  lemma {:induction false} MakeDirectoriesFresh(o: Objects, next: nat, at: nat, parts: seq<string>, toRoot: bool)
    requires Fresh(o, next) && at in o && o[at].kind == Directory
    requires AllParts(parts)
    ensures var m := MakeDirectories(o, next, at, parts, toRoot);
      && Fresh(m.objects, m.nextId) && m.nextId >= next && Grows(o, m.objects)
      && (forall x :: x in m.objects && x !in o ==> m.objects[x].kind == Directory)
      && (m.target.Some? ==> m.target.value in m.objects && m.objects[m.target.value].kind == Directory)
    decreases |parts|
  {
    if parts != [] {
      var part := parts[0];
      var (o1, next1) := CallbackState(o, next, at, part);
      var step := MakeStep(o, next, at, part, toRoot);
      if step.Some? {
        var rest := parts[1..];
        var toRoot1 := toRoot && !AcceptsAt(o, at, part);
        var m := MakeDirectories(o1, next1, step.value, rest, toRoot1);
        assert MakeDirectories(o, next, at, parts, toRoot) == m;
        MakeDirectoriesFresh(o1, next1, step.value, rest, toRoot1);
        GrowsTransitive(o, o1, m.objects);
      }
    }
  }

  /** `CreateDirectory(path)` on object `at`: a file creates nothing and returns `null`; on a directory a
      `null` path and a path with `|` throw, and any other path is split, trimmed and made, going to the
      root first when its first part is blank. */
  function CreateDirectory(o: Objects, next: nat, at: nat, path: NullableString): (r: Result<Made, Exception>)
    requires Fresh(o, next) && at in o
    ensures o[at].kind == File ==> r == Ok(Made(o, next, None))
    ensures o[at].kind == Directory ==> (r.Err? <==> path.None? || Bar in path.value)
    ensures r.Ok? ==> Fresh(r.value.objects, r.value.nextId) && r.value.nextId >= next && Grows(o, r.value.objects)
    ensures r.Ok? ==> forall x :: x in r.value.objects && x !in o ==> r.value.objects[x].kind == Directory
    ensures r.Ok? && r.value.target.Some? ==>
      r.value.target.value in r.value.objects && r.value.objects[r.value.target.value].kind == Directory
  {
    if o[at].kind == File then Ok(Made(o, next, None))
    else if path.None? then Err(ArgumentNullException("path"))
    else if Bar in path.value then Err(ArgumentException(IllegalPathCharacter))
    else
      var parts := TrimAll(Split(path.value, Separator));
      PathParts(path.value);
      MakeDirectoriesFresh(o, next, at, parts, parts[0] == "");
      Ok(MakeDirectories(o, next, at, parts, parts[0] == ""))
  }

  /** One step of `MakeDirectories` that creates its first part: the new directory gets id `next` and
      the walk goes on from it. */
  lemma MakeDirectoriesCreates(o: Objects, next: nat, at: nat, parts: seq<string>)
    requires Fresh(o, next) && at in o && o[at].kind == Directory && AllParts(parts)
    requires parts != [] && CreatesAt(o, at, parts[0])
    ensures CallbackState(o, next, at, parts[0]) == (AddChild(o, at, parts[0], next, Directory), next + 1)
    ensures MakeStep(o, next, at, parts[0], false) == Some(next)
    ensures var (o1, next1) := CallbackState(o, next, at, parts[0]);
      MakeDirectories(o, next, at, parts, false) == MakeDirectories(o1, next1, next, parts[1..], false)
  {
    assert AcceptsAt(o, at, parts[0]);
  }

  /** Names that exist nowhere yet are made as a chain of new directories, one per name, and the last of
      them is what `CreateDirectory` returns. */
  lemma {:induction false} MakeDirectoriesChain(o: Objects, next: nat, at: nat, parts: seq<string>)
    requires Fresh(o, next) && at in o && o[at].kind == Directory
    requires parts != [] && AllNames(parts)
    requires parts[0] !in o[at].children
    ensures MakeDirectories(o, next, at, parts, false).nextId == next + |parts|
    ensures MakeDirectories(o, next, at, parts, false).target.Some?
    ensures MakeDirectories(o, next, at, parts, false).target.value == next + |parts| - 1
    decreases |parts|
  {
    MakeDirectoriesCreates(o, next, at, parts);
    var (o1, next1) := CallbackState(o, next, at, parts[0]);
    var rest := parts[1..];
    var m := MakeDirectories(o1, next1, next, rest, false);
    if rest == [] {
      assert m == Made(o1, next1, Some(next));
    } else {
      assert rest[0] !in o1[next].children;
      AllNamesTail(parts);
      MakeDirectoriesChain(o1, next1, next, rest);
    }
  }

  /** Walking the names of such a chain afterwards leads to what `CreateDirectory` returned. */
  lemma {:induction false} MakeDirectoriesChainWalks(o: Objects, next: nat, at: nat, parts: seq<string>, m: Made)
    requires Fresh(o, next) && at in o && o[at].kind == Directory
    requires parts != [] && AllNames(parts)
    requires parts[0] !in o[at].children
    requires m == MakeDirectories(o, next, at, parts, false)
    ensures WellFormed(m.objects) && at in m.objects
    ensures Traverse(m.objects, at, parts, false, AcceptAll).target == m.target
    decreases |parts|
  {
    MakeDirectoriesCreates(o, next, at, parts);
    var part := parts[0];
    var (o1, next1) := CallbackState(o, next, at, part);
    var rest := parts[1..];
    assert m == MakeDirectories(o1, next1, next, rest, false);
    MakeDirectoriesFresh(o1, next1, next, rest, false);
    if rest == [] {
      assert m == Made(o1, next1, Some(next));
    } else {
      assert rest[0] !in o1[next].children;
      AllNamesTail(parts);
      MakeDirectoriesChainWalks(o1, next1, next, rest, m);
    }
    GrowsKeepsChild(o1, m.objects, at, part);
    assert Step(m.objects, at, part) == Some(next);
  }

  /** The names after the first are names too. */
  lemma AllNamesTail(parts: seq<string>)
    requires parts != [] && AllNames(parts)
    ensures AllNames(parts[1..])
  {
    var rest := parts[1..];
    forall i | 0 <= i < |rest| ensures NameOk(rest[i]) && PartOk(rest[i]) {
      assert rest[i] == parts[i + 1];
    }
  }

  /** A file in the way is skipped: making `f/n`, where `f` is a file in `at` and `n` is free, creates
      `n` beside the file and returns it, although the walk `f/n` itself leads nowhere. */
  lemma MakeDirectoriesSkipsFile(o: Objects, next: nat, at: nat, f: string, n: string)
    requires Fresh(o, next) && at in o && o[at].kind == Directory
    requires f in o[at].children && o[at].children[f] in o && o[o[at].children[f]].kind == File
    requires NameOk(f) && NameOk(n) && n !in o[at].children
    ensures (NamesAreParts([f, n]);
      MakeDirectories(o, next, at, [f, n], false) == Made(AddChild(o, at, n, next, Directory), next + 1, Some(next)))
    ensures Traverse(o, at, [f, n], false, AcceptAll).target == None
  {
    assert !AcceptsAt(o, at, f) && !CreatesAt(o, at, f);
    assert CallbackState(o, next, at, f) == (o, next);
    assert MakeStep(o, next, at, f, false) == Some(at);
    assert [f, n][1..] == [n];
    assert MakeDirectories(o, next, at, [f, n], false) == MakeDirectories(o, next, at, [n], false);
    var o1 := AddChild(o, at, n, next, Directory);
    assert CreatesAt(o, at, n) && AcceptsAt(o, at, n);
    assert CallbackState(o, next, at, n) == (o1, next + 1);
    assert MakeStep(o, next, at, n, false) == Some(next);
    assert [n][1..] == [];
    assert MakeDirectories(o, next, at, [n], false) == MakeDirectories(o1, next + 1, next, [], false);
    var c := o[at].children[f];
    assert n !in o[c].children;
    assert Traverse(o, c, [n], false, AcceptAll).target == None;
  }

  // ---------------------------------------------------------------------------------------------
  // `CreateFile`

  /** What `CreateFile` leaves: the objects, the next free id, and the file it made (`null` for none). */
  datatype Created = Created(objects: Objects, nextId: nat, file: Option<nat>)

  /** The callback of `CreateFile`, which accepts a part exactly when it is offered at a directory. */
  function IsDirectoryIn(o: Objects): (nat, string) -> bool {
    (x: nat, part: string) => x in o && o[x].kind == Directory
  }

  /** Where `CreateFile(path)` on directory `at` files its new file, if anywhere: the path is walked with
      a callback that only accepts parts at directories, remembering the last directory and part it saw;
      only when the walk ends in `null` is a file made, named by that last part, in that directory, unless
      the part is blank, `.` or `..`. */
  function FileTarget(o: Objects, at: nat, path: string): (t: Option<(nat, string)>)
    requires WellFormed(o) && at in o && Bar !in path
    ensures t.Some? ==> var (dir, name) := t.value;
      dir in o && o[dir].kind == Directory && NameOk(name) && name !in o[dir].children
  {
    var w := TraversePath(o, at, Some(path), IsDirectoryIn(o)).value;
    if w.target.Some? then None
    else
      var (dir, name) := Last(w.offers);
      if dir in o && o[dir].kind == Directory && !IsNullOrWhiteSpace(Some(name)) && name != "." && name != ".." then
        NewFileName(o, at, path, IsDirectoryIn(o));
        Some((dir, name))
      else None
  }

  /** `CreateFile(path)` on object `at`: a file makes nothing; on a directory the errors of `TraversePath`
      are thrown, and otherwise a new empty file is filed where `FileTarget` says, if anywhere. */
  function NewFile(o: Objects, next: nat, at: nat, path: NullableString): (r: Result<Created, Exception>)
    requires Fresh(o, next) && at in o
    ensures o[at].kind == File ==> r == Ok(Created(o, next, None))
    ensures o[at].kind == Directory ==> (r.Err? <==> path.None? || Bar in path.value)
    ensures r.Ok? ==> Fresh(r.value.objects, r.value.nextId) && Grows(o, r.value.objects)
    ensures r.Ok? && r.value.file.None? ==> r.value.objects == o && r.value.nextId == next
    ensures r.Ok? && r.value.file.Some? ==> r.value.file.value == next && r.value.nextId == next + 1
    ensures r.Ok? && r.value.file.Some? ==>
      r.value.file.value in r.value.objects && r.value.objects[r.value.file.value].kind == File
  {
    if o[at].kind == File then Ok(Created(o, next, None))
    else if path.None? then Err(ArgumentNullException("path"))
    else if Bar in path.value then Err(ArgumentException(IllegalPathCharacter))
    else
      match FileTarget(o, at, path.value)
      case None => Ok(Created(o, next, None))
      case Some((dir, name)) =>
        AddChildFresh(o, next, dir, name, File);
        Ok(Created(AddChild(o, dir, name, next, File), next + 1, Some(next)))
  }

  /** The part `CreateFile` names its file by comes from the path, is free in its directory, and is a
      valid name once it is not blank, `.` or `..`. */
  lemma NewFileName(o: Objects, at: nat, path: string, accept: (nat, string) -> bool)
    requires WellFormed(o) && at in o && Bar !in path
    requires TraversePath(o, at, Some(path), accept).value.target.None?
    ensures var (dir, name) := Last(TraversePath(o, at, Some(path), accept).value.offers);
      && dir in o && Step(o, dir, name).None?
      && (name != "" && name != "." && name != ".." ==> NameOk(name) && name !in o[dir].children)
  {
    var parts := TrimAll(Split(path, Separator));
    var w := Traverse(o, at, parts, parts[0] == "", accept);
    assert TraversePath(o, at, Some(path), accept).value == w;
    TraverseFailsAtLast(o, at, parts, parts[0] == "", accept);
    var (dir, name) := Last(w.offers);
    assert w.offers[|w.offers| - 1].1 in parts;
    PathParts(path);
    if name != "" && name != "." && name != ".." {
      PartName(name);
    }
  }

  /** A file is made exactly when the walk ends in `null` at a directory offered a part that is not
      blank, `.` or `..`; it goes into that directory under that part, where the walk found nothing. */
  lemma FileTargetSpec(o: Objects, at: nat, path: string)
    requires WellFormed(o) && at in o && o[at].kind == Directory && Bar !in path
    ensures var w := TraversePath(o, at, Some(path), IsDirectoryIn(o)).value;
      var t := FileTarget(o, at, path);
      && (t.Some? <==> w.target.None? && Last(w.offers).1 != "" && Last(w.offers).1 != "."
                       && Last(w.offers).1 != "..")
      && (t.Some? ==> t.value == Last(w.offers) && Step(o, t.value.0, t.value.1).None?)
  {
    var w := TraversePath(o, at, Some(path), IsDirectoryIn(o)).value;
    if w.target.None? {
      NewFileName(o, at, path, IsDirectoryIn(o));
      var parts := TrimAll(Split(path, Separator));
      TraverseFailsAtLast(o, at, parts, parts[0] == "", IsDirectoryIn(o));
      var (dir, name) := Last(w.offers);
      assert IsDirectoryIn(o)(dir, name);
      if name != "" && name != "." && name != ".." {
        assert !IsNullOrWhiteSpace(Some(name)) by {
          assert !IsWhiteSpace(name[0]);
        }
      }
    }
  }

  /** A missing name at the front of a path becomes the file, whatever follows it: `a/b` with no `a`
      makes a file `a`. */
  lemma NewFileAtFirstMissing(o: Objects, next: nat, at: nat, a: string, b: string)
    requires Fresh(o, next) && at in o && o[at].kind == Directory
    requires NameOk(a) && NameOk(b) && a !in o[at].children
    ensures NewFile(o, next, at, Some(a + [Separator] + b)) == Ok(Created(AddChild(o, at, a, next, File), next + 1, Some(next)))
  {
    var path := a + [Separator] + b;
    TwoNamePath(a, b);
    var w := Traverse(o, at, [a, b], false, IsDirectoryIn(o));
    assert w == Walk(None, [(at, a)]);
    assert TraversePath(o, at, Some(path), IsDirectoryIn(o)) == Ok(w);
    FileTargetSpec(o, at, path);
    assert FileTarget(o, at, path) == Some((at, a));
  }

  /** Two names joined by `/` split back into the two names. */
  lemma TwoNamePath(a: string, b: string)
    requires NameOk(a) && NameOk(b)
    ensures Bar !in a + [Separator] + b
    ensures TrimAll(Split(a + [Separator] + b, Separator)) == [a, b]
  {
    SplitAtFirst(a, b, Separator);
    assert Split(b, Separator) == [b];
    TrimNames([a, b]);
  }

  /** Making a file by its own name in a directory, and then looking that name up, finds the file. */
  lemma NewFileThenResolve(o: Objects, next: nat, at: nat, n: string)
    requires Fresh(o, next) && at in o && o[at].kind == Directory
    requires NameOk(n) && n !in o[at].children
    ensures var o2 := AddChild(o, at, n, next, File);
      && NewFile(o, next, at, Some(n)) == Ok(Created(o2, next + 1, Some(next)))
      && WellFormed(o2) && at in o2
      && TraversePath(o2, at, Some(n), AcceptAll).value.target == Some(next)
  {
    assert Split(n, Separator) == [n];
    TrimNames([n]);
    assert Traverse(o, at, [n], false, IsDirectoryIn(o)) == Walk(None, [(at, n)]);
    FileTargetSpec(o, at, n);
    AddChildFresh(o, next, at, n, File);
    var o2 := AddChild(o, at, n, next, File);
    assert Step(o2, at, n) == Some(next);
    assert Traverse(o2, at, [n], false, AcceptAll) == Walk(Some(next), [(at, n)]);
  }

  // ---------------------------------------------------------------------------------------------
  // `Clear` and `Delete`

  /** What `Clear` leaves of one object: a file loses its content, a directory its children. */
  function Emptied(n: Node): Node {
    if n.kind == File then n.(content := "") else n.(children := map[])
  }

  /** `Clear` on `top`: `Directory.Clear` clears each child and then forgets them all, so every object
      filed anywhere below `top`, and `top` itself, is emptied (see `UnderChild` for the recursion). */
  function Cleared(o: Objects, top: nat): Objects
    requires WellFormed(o)
  {
    map x | x in o :: if Under(o, x, top) then Emptied(o[x]) else o[x]
  }

  /** An object filed under a child of `top` is filed under `top`. */
  lemma {:induction false} UnderTransitive(o: Objects, x: nat, m: nat, top: nat)
    requires WellFormed(o) && x in o && m in o
    requires Under(o, x, m) && Under(o, m, top)
    ensures Under(o, x, top)
    decreases x
  {
    if x != m {
      assert ParentOk(o, x);
      UnderTransitive(o, o[x].parent.value, m, top);
    }
  }

  /** The recursion of `Clear`: below `top` lie exactly `top` and what lies below each of its children. */
  lemma {:induction false} UnderChild(o: Objects, x: nat, top: nat)
    requires WellFormed(o) && x in o && top in o && x != top
    ensures Under(o, x, top) <==> exists k :: k in o[top].children && Under(o, x, o[top].children[k])
    decreases x
  {
    if Under(o, x, top) {
      assert ParentOk(o, x);
      var p := o[x].parent.value;
      if p == top {
        var k := o[x].name;
        assert k in o[top].children && o[top].children[k] == x;
        assert Under(o, x, o[top].children[k]);
      } else {
        UnderChild(o, p, top);
        var k :| k in o[top].children && Under(o, p, o[top].children[k]);
        assert ChildOk(o, top, k);
        assert Under(o, x, o[top].children[k]);
      }
    }
    if exists k :: k in o[top].children && Under(o, x, o[top].children[k]) {
      var k :| k in o[top].children && Under(o, x, o[top].children[k]);
      var c := o[top].children[k];
      assert ChildOk(o, top, k);
      assert ParentOk(o, c);
      assert Under(o, c, top);
      UnderTransitive(o, x, c, top);
    }
  }

  /** Clearing keeps the objects well formed and the ids as they were: only contents and children go. */
  lemma ClearedWellFormed(o: Objects, top: nat)
    requires WellFormed(o)
    ensures WellFormed(Cleared(o, top)) && Cleared(o, top).Keys == o.Keys
  {
    var o1 := Cleared(o, top);
    forall id | id in o1 && id != RootId
      ensures ParentOk(o1, id)
    {
      assert ParentOk(o, id);
    }
    forall id, k | id in o1 && k in o1[id].children
      ensures ChildOk(o1, id, k)
    {
      assert ChildOk(o, id, k);
    }
    assert o1[RootId].kind == Directory && o1[RootId].parent == None;
  }

  /** What `Delete` does to a resolved object `t`: clears it, then removes its name from its parent's
      children (a parent is always a directory), answering whether that name was filed there. */
  function Removed(o: Objects, t: nat): (r: (Objects, bool))
    requires WellFormed(o) && t in o
    ensures WellFormed(r.0) && r.0.Keys == o.Keys
  {
    ClearedWellFormed(o, t);
    var o1 := Cleared(o, t);
    match o[t].parent
    case None => (o1, false)
    case Some(p) =>
      assert ParentOk(o, t);
      UnfileWellFormed(o1, p, o[t].name);
      (Unfile(o1, p, o[t].name), o[t].name in o1[p].children)
  }

  /** `children.Remove(name)` in directory `p`. */
  function Unfile(o: Objects, p: nat, name: string): Objects
    requires p in o
  {
    o[p := o[p].(children := o[p].children - {name})]
  }

  /** Removing a name from a directory keeps the objects well formed. */
  lemma UnfileWellFormed(o: Objects, p: nat, name: string)
    requires WellFormed(o) && p in o
    ensures WellFormed(Unfile(o, p, name)) && Unfile(o, p, name).Keys == o.Keys
  {
    var o2 := Unfile(o, p, name);
    forall id, k | id in o2 && k in o2[id].children
      ensures ChildOk(o2, id, k)
    {
      assert ChildOk(o, id, k);
    }
    forall id | id in o2 && id != RootId
      ensures ParentOk(o2, id)
    {
      assert ParentOk(o, id);
    }
  }

  /** `Delete(path)` on object `at`: a file deletes nothing; a directory resolves the path as
      `GetRelativeFileSystemObject` does (every part accepted), and removes what it finds. */
  function DeletePath(o: Objects, at: nat, path: NullableString): (r: Result<(Objects, bool), Exception>)
    requires WellFormed(o) && at in o
    ensures o[at].kind == File ==> r == Ok((o, false))
    ensures o[at].kind == Directory ==> (r.Err? <==> path.None? || Bar in path.value)
    ensures o[at].kind == Directory && r.Err? ==> r.error == TraversePath(o, at, path, AcceptAll).error
    ensures r.Ok? ==> WellFormed(r.value.0) && r.value.0.Keys == o.Keys
    ensures o[at].kind == Directory && r.Ok? && TraversePath(o, at, path, AcceptAll).value.target.None? ==>
      r.value == (o, false)
  {
    if o[at].kind == File then Ok((o, false))
    else
      match TraversePath(o, at, path, AcceptAll)
      case Err(e) => Err(e)
      case Ok(w) => if w.target.None? then Ok((o, false)) else Ok(Removed(o, w.target.value))
  }

  /** `Delete()`: the root deletes nothing; any other object has its parent delete the path made of its
      own name, which never throws, since a name holds no `|`. */
  function DeleteSelf(o: Objects, id: nat): (r: (Objects, bool))
    requires WellFormed(o) && id in o
    ensures id == RootId ==> r == (o, false)
    ensures WellFormed(r.0) && r.0.Keys == o.Keys
  {
    ParentlessIsRoot(o, id);
    if o[id].parent.None? then (o, false)
    else
      assert ParentOk(o, id);
      DeletePath(o, o[id].parent.value, Some(o[id].name)).value
  }

  /** Deleting keeps the kind of every object: a directory stays a directory. */
  lemma DeleteKeepsKinds(o: Objects, at: nat, path: NullableString, x: nat)
    requires WellFormed(o) && at in o && x in o && DeletePath(o, at, path).Ok?
    ensures x in DeletePath(o, at, path).value.0 && DeletePath(o, at, path).value.0[x].kind == o[x].kind
  {
  }

  /** `Delete()` keeps the kind of every object. */
  lemma DeleteSelfKeepsKinds(o: Objects, id: nat, x: nat)
    requires WellFormed(o) && id in o && x in o
    ensures x in DeleteSelf(o, id).0 && DeleteSelf(o, id).0[x].kind == o[x].kind
  {
    if id != RootId {
      assert ParentOk(o, id);
      DeleteKeepsKinds(o, o[id].parent.value, Some(o[id].name), x);
    }
  }

  /** Deleting an object filed in its parent removes it: the answer is true, everything below it is
      emptied, and none of it is in the tree any more. */
  lemma DeleteDetachesSubtree(o: Objects, t: nat)
    requires WellFormed(o) && t in o && t != RootId && Attached(o, t)
    ensures Removed(o, t).1
    ensures forall x :: x in o && Under(o, x, t) ==> Removed(o, t).0[x] == Emptied(o[x])
    ensures forall x :: x in o && Under(o, x, t) ==> !Under(Removed(o, t).0, x, RootId)
  {
    ClearedWellFormed(o, t);
    var o2 := Removed(o, t).0;
    assert ParentOk(o, t);
    var p := o[t].parent.value;
    assert !Under(o, p, t);
    forall x | x in o && Under(o, x, t)
      ensures o2[x] == Emptied(o[x]) && !Under(o2, x, RootId)
    {
      if x == t {
        assert !Attached(o2, t);
      } else {
        assert ParentOk(o, x);
        var q := o[x].parent.value;
        assert Under(o, q, t);
        assert o[q].kind == Directory && o2[q].children == map[];
        assert !Attached(o2, x);
      }
    }
  }

  /** Deleting `t` leaves everything else alone: the parent's children lose just the name of `t`, and
      an object `x` outside the tree below `t`, other than the parent, is as it was. */
  lemma DeleteKeepsOthers(o: Objects, t: nat, x: nat)
    requires WellFormed(o) && t in o && t != RootId && x in o
    ensures ParentOk(o, t)
    ensures var p := o[t].parent.value;
      && Removed(o, t).0[p].children == o[p].children - {o[t].name}
      && (x != p && !Under(o, x, t) ==> Removed(o, t).0[x] == o[x])
  {
    assert ParentOk(o, t);
    var p := o[t].parent.value;
    var o1 := Cleared(o, t);
    var o2 := Unfile(o1, p, o[t].name);
    assert Removed(o, t).0 == o2;
    assert o2[p].children == o[p].children - {o[t].name} by {
      assert !Under(o, p, t);
      assert o1[p] == o[p];
    }
    if x != p && !Under(o, x, t) {
      assert o1[x] == o[x];
    }
  }

  /** What was in the tree and not below `t` is still in the tree after deleting `t`. */
  lemma {:induction false} DeleteKeepsTree(o: Objects, t: nat, x: nat)
    requires WellFormed(o) && t in o && t != RootId && Attached(o, t)
    requires x in o && Under(o, x, RootId) && !Under(o, x, t)
    ensures Under(Removed(o, t).0, x, RootId)
    decreases x
  {
    var o2 := Removed(o, t).0;
    if x != RootId {
      assert ParentOk(o, x);
      var q := o[x].parent.value;
      DeleteKeepsTree(o, t, q);
      DeleteKeepsOthers(o, t, x);
      DeleteKeepsOthers(o, t, q);
      assert ParentOk(o2, x);
      var p := o[t].parent.value;
      assert o[x].name != o[t].name || q != p;
      assert Attached(o2, x);
    }
  }

  /** `Delete("")` on a directory resolves to the root, clears the whole tree and answers false: the
      root has no parent to be removed from. */
  lemma DeleteEmptyPathClearsRoot(o: Objects, at: nat)
    requires WellFormed(o) && at in o && o[at].kind == Directory
    ensures DeletePath(o, at, Some("")) == Ok((Cleared(o, RootId), false))
    ensures Cleared(o, RootId)[RootId].children == map[]
  {
    assert Split("", Separator) == [""];
    TrimNames([""]);
    assert Traverse(o, at, [""], true, AcceptAll) == Walk(Some(RootId), [(at, "")]);
    assert Under(o, RootId, RootId);
  }

  /** `Delete()` on an object filed in its parent removes exactly that object. */
  lemma DeleteSelfAttached(o: Objects, id: nat)
    requires WellFormed(o) && id in o && id != RootId && Attached(o, id)
    ensures DeleteSelf(o, id) == Removed(o, id) && DeleteSelf(o, id).1
  {
    assert ParentOk(o, id);
    var p := o[id].parent.value;
    var n := o[id].name;
    SingleName(o, p, n);
    assert Step(o, p, n) == Some(id);
    assert Traverse(o, p, [n], false, AcceptAll) == Walk(Some(id), [(p, n)]);
    DeleteDetachesSubtree(o, id);
  }

  /** `Delete()` on an object no longer filed in its parent deletes whatever the parent now files under
      its name, possibly another object, and otherwise nothing. */
  lemma DeleteSelfDetached(o: Objects, id: nat)
    requires WellFormed(o) && id in o && id != RootId && !Attached(o, id)
    ensures ParentOk(o, id)
    ensures var p := o[id].parent.value; var n := o[id].name;
      && (n in o[p].children ==>
            ChildOk(o, p, n) && o[p].children[n] != id && DeleteSelf(o, id) == Removed(o, o[p].children[n]))
      && (n !in o[p].children ==> DeleteSelf(o, id) == (o, false))
  {
    assert ParentOk(o, id);
    var p := o[id].parent.value;
    var n := o[id].name;
    SingleName(o, p, n);
    if n in o[p].children {
      assert ChildOk(o, p, n);
      assert Traverse(o, p, [n], false, AcceptAll) == Walk(Some(o[p].children[n]), [(p, n)]);
    } else {
      assert Traverse(o, p, [n], false, AcceptAll) == Walk(None, [(p, n)]);
    }
  }

  /** A single name is a path of one part, walked without going to the root. */
  lemma SingleName(o: Objects, at: nat, n: string)
    requires WellFormed(o) && at in o && NameOk(n)
    ensures TraversePath(o, at, Some(n), AcceptAll) == Ok(Traverse(o, at, [n], false, AcceptAll))
  {
    assert Split(n, Separator) == [n];
    TrimNames([n]);
  }

  // ---------------------------------------------------------------------------------------------
  // Looking objects up

  /** `GetRelativeFileSystemObject(path)`: where the path leads with every part accepted. */
  function Resolve(o: Objects, at: nat, path: NullableString): (r: Result<Option<nat>, Exception>)
    requires WellFormed(o) && at in o
    ensures r.Err? <==> path.None? || Bar in path.value
    ensures r.Err? ==> r.error == TraversePath(o, at, path, AcceptAll).error
    ensures r.Ok? && r.value.Some? ==> r.value.value in o
  {
    match TraversePath(o, at, path, AcceptAll)
    case Err(e) => Err(e)
    case Ok(w) => Ok(w.target)
  }

  /** `DoesPathExist`, `DoesDirectoryExist` (`kind == Some(Directory)`) and `DoesFileExist`
      (`kind == Some(File)`): the path leads to an object, of that kind when one is given. */
  function DoesExist(o: Objects, at: nat, path: NullableString, kind: Option<Kind>): (r: Result<bool, Exception>)
    requires WellFormed(o) && at in o
    ensures r.Err? <==> path.None? || Bar in path.value
  {
    match Resolve(o, at, path)
    case Err(e) => Err(e)
    case Ok(t) => Ok(t.Some? && (kind.None? || o[t.value].kind == kind.value))
  }

  /** A path exists exactly when a directory or a file exists there, never both. */
  lemma ExistsKinds(o: Objects, at: nat, path: string)
    requires WellFormed(o) && at in o && Bar !in path
    ensures var any := DoesExist(o, at, Some(path), None).value;
      var dir := DoesExist(o, at, Some(path), Some(Directory)).value;
      var file := DoesExist(o, at, Some(path), Some(File)).value;
      (any <==> dir || file) && !(dir && file)
  {
  }

  /** From anywhere, the full path of an object in the tree below the root exists and has its kind. */
  lemma FullPathExists(o: Objects, begin: nat, id: nat)
    requires WellFormed(o) && begin in o && id in o && id != RootId && Under(o, id, RootId)
    ensures DoesExist(o, begin, Some(FullPath(o, id)), None) == Ok(true)
    ensures DoesExist(o, begin, Some(FullPath(o, id)), Some(o[id].kind)) == Ok(true)
  {
    FullPathResolves(o, begin, id);
  }

  // ---------------------------------------------------------------------------------------------
  // File contents

  /** `File.Read(startIndex)`: the tail from `start`, or `""` when `start` is not below the length. */
  function Suffix(content: string, start: uint32): (r: string)
    ensures |r| == if start < |content| then |content| - start else 0
    ensures content == content[..|content| - |r|] + r
  {
    if start < |content| then content[start..] else ""
  }

  /** `File.Read(startIndex, length)`: the `length` characters from `start` when `start` is below the
      length and that many follow it, otherwise `""`; always a beginning of `Suffix(content, start)`. */
  function Substring(content: string, start: uint32, length: uint32): (r: string)
    ensures start < |content| && length <= |content| - start ==> |r| == length
    ensures !(start < |content| && length <= |content| - start) ==> r == ""
    ensures r <= Suffix(content, start)
  {
    if start < |content| && length <= |content| - start then content[start..start + length] else ""
  }

  /** `Read()` on any object: a directory reads as `""`. */
  function Read(o: Objects, id: nat): string
    requires id in o
  {
    if o[id].kind == File then o[id].content else ""
  }

  /** The objects with only the content of `id` replaced. */
  function SetContent(o: Objects, id: nat, content: string): Objects
    requires id in o
  {
    o[id := o[id].(content := content)]
  }

  /** Replacing a content keeps the objects well formed. */
  lemma SetContentWellFormed(o: Objects, id: nat, content: string)
    requires WellFormed(o) && id in o
    ensures WellFormed(SetContent(o, id, content)) && SetContent(o, id, content).Keys == o.Keys
  {
    var o2 := SetContent(o, id, content);
    forall x | x in o2 && x != RootId
      ensures ParentOk(o2, x)
    {
      assert ParentOk(o, x);
    }
    forall x, k | x in o2 && k in o2[x].children
      ensures ChildOk(o2, x, k)
    {
      assert ChildOk(o, x, k);
    }
  }

  /** `Write(content)`: a directory writes nothing and answers false; a file throws for `null`, and
      otherwise takes `content` as its whole content and answers true. */
  function WriteContent(o: Objects, id: nat, content: NullableString): (r: Result<(Objects, bool), Exception>)
    requires WellFormed(o) && id in o
    ensures o[id].kind == Directory ==> r == Ok((o, false))
    ensures o[id].kind == File ==> (r.Err? <==> content.None?)
    ensures r.Err? ==> r.error == ArgumentNullException("content")
    ensures r.Ok? ==> WellFormed(r.value.0) && r.value.0.Keys == o.Keys
    ensures r.Ok? ==> forall x :: x in o && x != id ==> r.value.0[x] == o[x]
    ensures r.Ok? && o[id].kind == File ==>
      r.value.1 && Read(r.value.0, id) == content.value && r.value.0[id] == o[id].(content := content.value)
  {
    if o[id].kind == Directory then Ok((o, false))
    else if content.None? then Err(ArgumentNullException("content"))
    else
      SetContentWellFormed(o, id, content.value);
      Ok((SetContent(o, id, content.value), true))
  }

  /** `Append(content)`: as `Write`, but the file's content grows by `content`. */
  function AppendContent(o: Objects, id: nat, content: NullableString): (r: Result<(Objects, bool), Exception>)
    requires WellFormed(o) && id in o
    ensures o[id].kind == Directory ==> r == Ok((o, false))
    ensures o[id].kind == File ==> (r.Err? <==> content.None?)
    ensures r.Err? ==> r.error == ArgumentNullException("content")
    ensures r.Ok? ==> WellFormed(r.value.0) && r.value.0.Keys == o.Keys
    ensures r.Ok? ==> forall x :: x in o && x != id ==> r.value.0[x] == o[x]
    ensures r.Ok? && o[id].kind == File ==>
      r.value.1 && Read(r.value.0, id) == Read(o, id) + content.value
      && r.value.0[id] == o[id].(content := Read(r.value.0, id))
  {
    if o[id].kind == Directory then Ok((o, false))
    else if content.None? then Err(ArgumentNullException("content"))
    else
      SetContentWellFormed(o, id, o[id].content + content.value);
      Ok((SetContent(o, id, o[id].content + content.value), true))
  }

  /** Reading an appended file from its old length gives back exactly what was appended. */
  lemma AppendThenRead(o: Objects, id: nat, s: string)
    requires WellFormed(o) && id in o && o[id].kind == File && |o[id].content| < Two32
    ensures Suffix(Read(AppendContent(o, id, Some(s)).value.0, id), |o[id].content|) == s
  {
    var c := o[id].content;
    assert (c + s)[|c|..] == s;
  }
}
