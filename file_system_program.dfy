/**
 * The file-system program itself: the loader that rebuilds the tree from a save, the loops of
 * `TraversePath`, `FullPath`, `UnescapeText`, `GetContentArgument` and `Save`, and the program's state
 * (the tree, the current directory and the block's storage string) as a class.
 */
module FileSystemPrograms {
  import opened Wrappers
  import opened Ints
  import opened Errors
  import opened Seqs
  import opened Text
  import opened Escapes
  import opened StorageSerializer
  import opened FileSystemTrees
  import opened FileSystemSaves

  // ---------------------------------------------------------------------------------------------
  // Building the tree from a save

  /** A new program's tree: the root directory alone, named `""`, without a parent. */
  const EmptyTree: Objects := map[RootId := Node(Directory, "", None, map[], "")]

  /** The root alone is well formed, and the next new object gets id 1. */
  lemma EmptyTreeFresh()
    ensures Fresh(EmptyTree, RootId + 1)
  {
  }

  /** Where a build stopped: the objects, the next id, and the exception that ended it, if one did. */
  datatype Built = Built(objects: Objects, nextId: nat, failure: Option<Exception>)

  /** The exception of a saved directory path `CreateDirectory` answers `null` for. */
  function DirectoryFailure(path: string): Exception {
    InvalidOperationException("Failed to create directory \"" + path + "\" from storage.")
  }

  /** The exception of a saved file path `CreateFile` answers `null` for. */
  function FileFailure(path: string): Exception {
    InvalidOperationException("Failed to create file \"" + path + "\" from storage.")
  }

  /** The loader's loop making each read directory path from the root. The first path that throws (one
      holding `|`) or gives `null` ends it, with what was made until then. */
  function BuildDirectories(o: Objects, next: nat, dirs: seq<string>): Built
    requires Fresh(o, next)
    decreases |dirs|
  {
    if dirs == [] then Built(o, next, None)
    else
      match CreateDirectory(o, next, RootId, Some(dirs[0]))
      case Err(e) => Built(o, next, Some(e))
      case Ok(m) =>
        if m.target.None? then Built(m.objects, m.nextId, Some(DirectoryFailure(dirs[0])))
        else BuildDirectories(m.objects, m.nextId, dirs[1..])
  }

  /** The loader's loop making each read file from the root and writing its content. The first path that
      throws or gives no new file ends it. (Writing a string into a file always succeeds, so the loader's
      third failure cannot happen.) */
  function BuildFiles(o: Objects, next: nat, files: seq<(string, string)>): Built
    requires Fresh(o, next)
    decreases |files|
  {
    if files == [] then Built(o, next, None)
    else
      match NewFile(o, next, RootId, Some(files[0].0))
      case Err(e) => Built(o, next, Some(e))
      case Ok(c) =>
        if c.file.None? then Built(c.objects, c.nextId, Some(FileFailure(files[0].0)))
        else
          var o1 := WriteContent(c.objects, c.file.value, Some(files[0].1)).value.0;
          BuildFiles(o1, c.nextId, files[1..])
  }

  /** Building keeps the objects well formed and the ids fresh, and only adds to what was there. */
  lemma {:induction false} BuildDirectoriesFresh(o: Objects, next: nat, dirs: seq<string>)
    requires Fresh(o, next)
    ensures var b := BuildDirectories(o, next, dirs);
      Fresh(b.objects, b.nextId) && b.nextId >= next && Grows(o, b.objects)
    decreases |dirs|
  {
    if dirs != [] {
      var r := CreateDirectory(o, next, RootId, Some(dirs[0]));
      if r.Ok? && r.value.target.Some? {
        var m := r.value;
        BuildDirectoriesFresh(m.objects, m.nextId, dirs[1..]);
        GrowsTransitive(o, m.objects, BuildDirectories(m.objects, m.nextId, dirs[1..]).objects);
      }
    }
  }

  /** Building files keeps the objects well formed and the ids fresh, and the objects there before it
      keep their ids. */
  lemma {:induction false} BuildFilesFresh(o: Objects, next: nat, files: seq<(string, string)>)
    requires Fresh(o, next)
    ensures var b := BuildFiles(o, next, files);
      Fresh(b.objects, b.nextId) && b.nextId >= next && o.Keys <= b.objects.Keys
    decreases |files|
  {
    if files != [] {
      var r := NewFile(o, next, RootId, Some(files[0].0));
      if r.Ok? && r.value.file.Some? {
        var c := r.value;
        var o1 := WriteContent(c.objects, c.file.value, Some(files[0].1)).value.0;
        assert Fresh(o1, c.nextId);
        BuildFilesFresh(o1, c.nextId, files[1..]);
      }
    }
  }

  /** The `catch` of the loader: `Clear` on the root empties the tree it had built. */
  function Caught(o: Objects, next: nat, e: Exception): (r: Built)
    requires Fresh(o, next)
    ensures Fresh(r.objects, r.nextId) && r.failure == Some(e)
    ensures r.objects[RootId].children == map[]
  {
    ClearedWellFormed(o, RootId);
    Built(Cleared(o, RootId), next, Some(e))
  }

  /** The second half of the loader: the read directories, then the read files, made from the root of a
      new tree. */
  function Rebuild(e: Entries): (r: Built)
    ensures Fresh(r.objects, r.nextId)
  {
    EmptyTreeFresh();
    var d := BuildDirectories(EmptyTree, RootId + 1, e.directories);
    BuildDirectoriesFresh(EmptyTree, RootId + 1, e.directories);
    if d.failure.Some? then Caught(d.objects, d.nextId, d.failure.value)
    else
      var f := BuildFiles(d.objects, d.nextId, e.files);
      BuildFilesFresh(d.objects, d.nextId, e.files);
      if f.failure.Some? then Caught(f.objects, f.nextId, f.failure.value) else f
  }

  /** The `RootDirectory` loader on the block's storage string. A string that is not valid storage throws
      from the serializer's constructor; a save without the magic leaves the new root as it is; otherwise
      the save is read and rebuilt. Every exception is caught and empties the root. */
  function Load(storage: NullableString, decode: seq<byte> -> string): (r: Built)
    ensures Fresh(r.objects, r.nextId)
    ensures storage.None? || !IsHexString(storage.value) ==> r.failure.Some?
    ensures r.failure.Some? ==> r.objects[RootId].children == map[]
  {
    EmptyTreeFresh();
    if storage.None? then Caught(EmptyTree, RootId + 1, ArgumentNullException("storageString"))
    else if !IsHexString(storage.value) then Caught(EmptyTree, RootId + 1, ArgumentException("Storage string is not valid"))
    else if |storage.value| / 2 >= Two32 then Caught(EmptyTree, RootId + 1, OverflowException)
    else
      match ParseSave(HexDecode(storage.value), decode)
      case Err(e) => Caught(EmptyTree, RootId + 1, e)
      case Ok(None) => Built(EmptyTree, RootId + 1, None)
      case Ok(Some(e)) => Rebuild(e)
  }

  // ---------------------------------------------------------------------------------------------
  // The loader's loops

  /** `ReadString` up to the decoding, as the save format reads a string at the current position. */
  method ReadStringAt(serializer: StorageDataSerializer) returns (r: Result<seq<byte>, Exception>)
    requires serializer.Valid()
    modifies serializer`position
    ensures serializer.Valid()
    ensures var expected := StringAt(serializer.data, old(serializer.position));
      && (expected.Err? ==> r == Err(expected.error))
      && (expected.Ok? ==> r == Ok(expected.value.0) && serializer.position == expected.value.1)
  {
    r := serializer.ReadString();
  }

  /** The loader's first reading loop: `count` directory paths read with `ReadString`, each added to the
      `HashSet`, which refuses a repeat. */
  method ReadDirectoryPaths(serializer: StorageDataSerializer, count: uint32, decode: seq<byte> -> string)
    returns (r: Result<seq<string>, Exception>)
    requires serializer.Valid()
    modifies serializer`position
    ensures serializer.Valid()
    ensures var expected := ReadDirectories(serializer.data, old(serializer.position), count, decode, []);
      && (expected.Err? ==> r == Err(expected.error))
      && (expected.Ok? ==> r == Ok(expected.value.0) && serializer.position == expected.value.1)
  {
    ghost var start := serializer.position;
    var paths: seq<string> := [];
    var index: nat := 0;
    while index != count
      invariant index <= count && serializer.Valid()
      invariant ReadDirectories(serializer.data, start, count, decode, [])
        == ReadDirectories(serializer.data, serializer.position, count - index, decode, paths)
      decreases count - index
    {
      var bytes := ReadStringAt(serializer);
      if bytes.Err? {
        return Err(bytes.error);
      }
      var path := decode(bytes.value);
      if path in paths {
        return Err(FormatException("Duplicate directory entry \"" + path + "\""));
      }
      paths := paths + [path];
      index := index + 1;
    }
    return Ok(paths);
  }

  /** One round of the loader's second reading loop: a path and a content, the path refused when the
      `Dictionary` already holds it. */
  method ReadFileEntry(serializer: StorageDataSerializer, count: nat, ghost rest: nat, decode: seq<byte> -> string,
                       entries: seq<(string, string)>) returns (r: Result<(string, string), Exception>)
    requires serializer.Valid() && count == rest + 1
    modifies serializer`position
    ensures serializer.Valid()
    ensures r.Err? ==> ReadFiles(serializer.data, old(serializer.position), count, decode, entries) == Err(r.error)
    ensures r.Ok? ==>
      ReadFiles(serializer.data, old(serializer.position), count, decode, entries)
      == ReadFiles(serializer.data, serializer.position, rest, decode, entries + [r.value])
  {
    ghost var pos := serializer.position;
    var pathBytes := ReadStringAt(serializer);
    if pathBytes.Err? {
      return Err(pathBytes.error);
    }
    ghost var next := serializer.position;
    var contentBytes := ReadStringAt(serializer);
    if contentBytes.Err? {
      return Err(contentBytes.error);
    }
    var path := decode(pathBytes.value);
    if path in Paths(entries) {
      return Err(FormatException("Duplicate file entry \"" + path + "\""));
    }
    ReadFilesStep(serializer.data, pos, count, rest, decode, entries, pathBytes.value, next, contentBytes.value,
      serializer.position);
    return Ok((path, decode(contentBytes.value)));
  }

  /** The loader's second reading loop: `count` file entries, each a path and a content read with
      `ReadString`, refusing a path the `Dictionary` already holds. */
  method ReadFileEntries(serializer: StorageDataSerializer, count: uint32, decode: seq<byte> -> string)
    returns (r: Result<seq<(string, string)>, Exception>)
    requires serializer.Valid()
    modifies serializer`position
    ensures serializer.Valid()
    ensures var expected := ReadFiles(serializer.data, old(serializer.position), count, decode, []);
      && (expected.Err? ==> r == Err(expected.error))
      && (expected.Ok? ==> r == Ok(expected.value.0) && serializer.position == expected.value.1)
  {
    ghost var start := serializer.position;
    var entries: seq<(string, string)> := [];
    var remaining: nat := count;  // the entries still to read: `count` less the loop's index
    while remaining != 0
      invariant serializer.Valid()
      invariant ReadFiles(serializer.data, start, count, decode, [])
        == ReadFiles(serializer.data, serializer.position, remaining, decode, entries)
    {
      var rest := remaining - 1;
      var entry := ReadFileEntry(serializer, remaining, rest, decode, entries);
      if entry.Err? {
        return Err(entry.error);
      }
      entries := entries + [entry.value];
      remaining := rest;
    }
    return Ok(entries);
  }

  /** The reading half of the loader, from a new serializer: the magic (anything else is not a save),
      the two counts, then the two reading loops. */
  method ReadSave(serializer: StorageDataSerializer, decode: seq<byte> -> string)
    returns (r: Result<Option<Entries>, Exception>)
    requires serializer.Valid() && serializer.position == 0
    modifies serializer`position
    ensures r == ParseSave(serializer.data, decode)
  {
    var magic := serializer.ReadInt32();
    if magic.Err? {
      return Err(magic.error);
    }
    if magic.value != Magic {
      return Ok(None);
    }
    var numDirectories := serializer.ReadUInt32();
    if numDirectories.Err? {
      return Err(numDirectories.error);
    }
    var numFiles := serializer.ReadUInt32();
    if numFiles.Err? {
      return Err(numFiles.error);
    }
    var dirs := ReadDirectoryPaths(serializer, numDirectories.value, decode);
    if dirs.Err? {
      return Err(dirs.error);
    }
    var files := ReadFileEntries(serializer, numFiles.value, decode);
    if files.Err? {
      return Err(files.error);
    }
    return Ok(Some(Entries(dirs.value, files.value)));
  }

  /** The loader's first building loop: each read directory path made from the root; a path that throws
      or gives `null` ends it. */
  method CreateDirectories(o: Objects, next: nat, dirs: seq<string>) returns (b: Built)
    requires Fresh(o, next)
    ensures b == BuildDirectories(o, next, dirs)
  {
    var objects, nextId := o, next;
    var i := 0;
    while i < |dirs|
      invariant 0 <= i <= |dirs| && Fresh(objects, nextId)
      invariant BuildDirectories(o, next, dirs) == BuildDirectories(objects, nextId, dirs[i..])
    {
      assert dirs[i..][0] == dirs[i] && dirs[i..][1..] == dirs[i + 1..];
      var made := FileSystemTrees.CreateDirectory(objects, nextId, RootId, Some(dirs[i]));
      if made.Err? {
        return Built(objects, nextId, Some(made.error));
      }
      if made.value.target.None? {
        return Built(made.value.objects, made.value.nextId, Some(DirectoryFailure(dirs[i])));
      }
      objects, nextId := made.value.objects, made.value.nextId;
      i := i + 1;
    }
    return Built(objects, nextId, None);
  }

  /** The loader's second building loop: each read file made from the root and given its content; a path
      that throws or gives no new file ends it. */
  method CreateFiles(o: Objects, next: nat, files: seq<(string, string)>) returns (b: Built)
    requires Fresh(o, next)
    ensures b == BuildFiles(o, next, files)
  {
    var objects, nextId := o, next;
    var i := 0;
    while i < |files|
      invariant 0 <= i <= |files| && Fresh(objects, nextId)
      invariant BuildFiles(o, next, files) == BuildFiles(objects, nextId, files[i..])
    {
      assert files[i..][0] == files[i] && files[i..][1..] == files[i + 1..];
      var created := NewFile(objects, nextId, RootId, Some(files[i].0));
      if created.Err? {
        return Built(objects, nextId, Some(created.error));
      }
      if created.value.file.None? {
        return Built(created.value.objects, created.value.nextId, Some(FileFailure(files[i].0)));
      }
      var written := WriteContent(created.value.objects, created.value.file.value, Some(files[i].1));
      objects, nextId := written.value.0, created.value.nextId;
      i := i + 1;
    }
    return Built(objects, nextId, None);
  }

  /** The `RootDirectory` loader: a new serializer on the storage string, the reading loops, then the
      building loops from the root of a new tree; any exception empties the root. */
  method LoadTree(storage: NullableString, decode: seq<byte> -> string) returns (b: Built)
    ensures b == Load(storage, decode)
  {
    EmptyTreeFresh();
    var serializer := StorageDataSerializer.FromStorageString(storage);
    if serializer.Err? {
      return Caught(EmptyTree, RootId + 1, serializer.error);
    }
    var read := ReadSave(serializer.value, decode);
    if read.Err? {
      return Caught(EmptyTree, RootId + 1, read.error);
    }
    if read.value.None? {
      return Built(EmptyTree, RootId + 1, None);
    }
    var e := read.value.value;
    var d := CreateDirectories(EmptyTree, RootId + 1, e.directories);
    BuildDirectoriesFresh(EmptyTree, RootId + 1, e.directories);
    if d.failure.Some? {
      return Caught(d.objects, d.nextId, d.failure.value);
    }
    var f := CreateFiles(d.objects, d.nextId, e.files);
    BuildFilesFresh(d.objects, d.nextId, e.files);
    if f.failure.Some? {
      return Caught(f.objects, f.nextId, f.failure.value);
    }
    return f;
  }

  /** With its root emptied, the tree holds nothing but the root. */
  lemma {:induction false} NothingUnderEmptyRoot(o: Objects, x: nat)
    requires WellFormed(o) && o[RootId].children == map[] && x in o
    ensures Under(o, x, RootId) <==> x == RootId
    decreases x
  {
    if x != RootId {
      assert ParentOk(o, x);
      NothingUnderEmptyRoot(o, o[x].parent.value);
    }
  }

  /** A failed load leaves a tree of the root alone. */
  lemma FailedLoadIsEmpty(storage: NullableString, decode: seq<byte> -> string, x: nat)
    requires Load(storage, decode).failure.Some? && x in Load(storage, decode).objects
    ensures Under(Load(storage, decode).objects, x, RootId) <==> x == RootId
  {
    NothingUnderEmptyRoot(Load(storage, decode).objects, x);
  }

  /** A valid storage string whose first `Int32` is not the magic loads as a new root, without failure. */
  lemma UnmarkedStorageLoadsEmpty(storage: string, decode: seq<byte> -> string)
    requires IsHexString(storage) && 4 <= |storage| / 2 < Two32
    requires FromLittleEndianSigned(HexDecode(storage)[..4]) != Magic
    ensures Load(Some(storage), decode) == Built(EmptyTree, RootId + 1, None)
  {
  }

  /** Loading what `Save` stored rebuilds exactly the saved entries, in their order. */
  lemma SaveThenLoad(e: Entries, utf8: string -> Utf8, decode: seq<byte> -> string)
    requires |e.directories| < Two32 / 2 && |e.files| < Two32 / 2 && |SaveBytes(e, utf8)| < Two32
    requires forall s :: decode(utf8(s)) == s
    requires Distinct(e.directories) && Distinct(Paths(e.files))
    ensures Load(Some(HexEncode(SaveBytes(e, utf8))), decode) == Rebuild(e)
  {
    var bytes := SaveBytes(e, utf8);
    DecodeEncode(bytes);
    SaveParses(e, utf8, decode);
    LoadParsed(HexEncode(bytes), decode, e);
  }

  /** A valid storage string whose save reads as `e` loads as the rebuild of `e`. */
  lemma LoadParsed(storage: string, decode: seq<byte> -> string, e: Entries)
    requires IsHexString(storage) && |storage| / 2 < Two32
    requires ParseSave(HexDecode(storage), decode) == Ok(Some(e))
    ensures Load(Some(storage), decode) == Rebuild(e)
  {
  }
  // ---------------------------------------------------------------------------------------------
  // The loops of paths and arguments

  /** The target of a walk, or the exception of the path. */
  function TargetOf(r: Result<Walk, Exception>): Result<Option<nat>, Exception> {
    match r
    case Err(e) => Err(e)
    case Ok(w) => Ok(w.target)
  }

  /** Where a walk goes from `at` on the part `part`: nowhere new when the callback refuses it, the root
      for an accepted leading empty part, otherwise the step. */
  function NextOf(o: Objects, at: nat, part: string, toRoot: bool, accept: (nat, string) -> bool): (r: Option<nat>)
    requires WellFormed(o) && at in o
    ensures r.Some? ==> r.value in o
  {
    if !accept(at, part) then Some(at) else if toRoot then Some(RootId) else Step(o, at, part)
  }

  /** A walk over the parts from the `i`-th on is the move on the `i`-th part, then the walk over the parts
      after it (from the `j`-th) from there. */
  lemma TraverseFirst(o: Objects, at: nat, parts: seq<string>, i: nat, j: nat, toRoot: bool,
                      accept: (nat, string) -> bool, next: Option<nat>)
    requires WellFormed(o) && at in o && i < |parts| && j == i + 1
    requires next == NextOf(o, at, parts[i], toRoot, accept)
    ensures next.None? ==> Traverse(o, at, parts[i..], toRoot, accept).target == None
    ensures next.Some? ==>
      Traverse(o, at, parts[i..], toRoot, accept).target
      == Traverse(o, next.value, parts[j..], toRoot && !accept(at, parts[i]), accept).target
  {
    assert parts[i..][0] == parts[i] && parts[i..][1..] == parts[j..];
  }

  /** One round of the loop of `TraversePath` on an accepted part: from `ret`, to the root up the chain of
      parents, or by `.`, `..` or a child's name. `None` is the `null` that ends the walk. */
  method Advance(o: Objects, ret: nat, part: string, toRoot: bool) returns (next: Option<nat>)
    requires WellFormed(o) && ret in o
    ensures next == if toRoot then Some(RootId) else Step(o, ret, part)
  {
    var current := ret;
    if toRoot {
      while o[current].parent.Some?
        invariant current in o
        decreases current
      {
        ParentlessIsRoot(o, current);
        assert ParentOk(o, current);
        current := o[current].parent.value;
      }
      ParentlessIsRoot(o, current);
      return Some(current);
    }
    if part == "." {
      return Some(current);
    }
    if part == ".." {
      ParentlessIsRoot(o, current);
      if o[current].parent.None? {
        return None;
      }
      assert ParentOk(o, current);
      return o[current].parent;
    }
    if part !in o[current].children {
      return None;
    }
    assert ChildOk(o, current, part);
    return Some(o[current].children[part]);
  }

  /** One round of the loop of `TraversePath`, on the `i`-th trimmed piece of the path: a part the
      callback refuses leaves `ret` where it is; the walk from `ret` over the pieces from the `i`-th on
      is the walk from `next` over the pieces after it (from the `j`-th). */
  method Round(o: Objects, ret: nat, ghost parts: seq<string>, i: nat, ghost j: nat, part: string, toRoot: bool,
               accept: (nat, string) -> bool)
    returns (next: Option<nat>, toRootAfter: bool)
    requires WellFormed(o) && ret in o && i < |parts| && j == i + 1 && part == parts[i]
    ensures next.Some? ==> next.value in o
    ensures next.None? ==> Traverse(o, ret, parts[i..], toRoot, accept).target == None
    ensures next.Some? ==>
      Traverse(o, ret, parts[i..], toRoot, accept).target == Traverse(o, next.value, parts[j..], toRootAfter, accept).target
  {
    var accepted := accept(ret, part);
    next := Some(ret);
    if accepted {
      next := Advance(o, ret, part, toRoot);
    }
    toRootAfter := toRoot && !accepted;
    TraverseFirst(o, ret, parts, i, j, toRoot, accept, next);
  }

  /** The loop of `TraversePath` over the pieces of the path, from `begin`: each trimmed piece the callback
      accepts moves `ret`; a move to `null` ends the loop. */
  method TraverseParts(o: Objects, begin: nat, pathParts: seq<string>, toRootAtFirst: bool, accept: (nat, string) -> bool)
    returns (r: Option<nat>)
    requires WellFormed(o) && begin in o
    ensures r == Traverse(o, begin, TrimAll(pathParts), toRootAtFirst, accept).target
  {
    ghost var parts := TrimAll(pathParts);
    ghost var target := Traverse(o, begin, parts, toRootAtFirst, accept).target;
    var toRoot := toRootAtFirst;
    var ret := begin;
    var i := 0;
    assert parts[0..] == parts;
    while i < |pathParts|
      invariant 0 <= i <= |pathParts| && ret in o
      invariant target == Traverse(o, ret, parts[i..], toRoot, accept).target
      decreases |pathParts| - i
    {
      var part := Trim(pathParts[i]);
      var next;
      next, toRoot := Round(o, ret, parts, i, i + 1, part, toRoot, accept);
      if next.None? {
        return None;
      }
      ret := next.value;
      i := i + 1;
    }
    return Some(ret);
  }

  /** `PathUtils.TraversePath`: the path split at `/`, a leading empty piece sending the walk to the root;
      `null` is `Ok(None)` here. */
  method FollowPath(o: Objects, begin: nat, path: NullableString, accept: (nat, string) -> bool)
    returns (r: Result<Option<nat>, Exception>)
    requires WellFormed(o) && begin in o
    ensures r == TargetOf(TraversePath(o, begin, path, accept))
  {
    if path.None? {
      return Err(ArgumentNullException("path"));
    }
    if Bar in path.value {
      return Err(ArgumentException(IllegalPathCharacter));
    }
    var pathParts := Split(path.value, Separator);
    var toRoot := Trim(pathParts[0]) == "";
    assert toRoot == (TrimAll(pathParts)[0] == "");
    var target := TraverseParts(o, begin, pathParts, toRoot, accept);
    return Ok(target);
  }

  /** The `FullPath` property: `/` for the root, otherwise `/` and the name of each object from the top
      down, inserted at the front while climbing from the object to the root. */
  method BuildFullPath(o: Objects, id: nat) returns (s: string)
    requires WellFormed(o) && id in o
    ensures s == FullPath(o, id)
  {
    ParentlessIsRoot(o, id);
    if o[id].parent.None? {
      return [Separator];
    }
    var builder := "";
    var current := id;
    while o[current].parent.Some?
      invariant current in o
      invariant NamesPath(o, id) == NamesPath(o, current) + builder
      decreases current
    {
      ParentlessIsRoot(o, current);
      assert ParentOk(o, current);
      var parent := o[current].parent.value;
      assert NamesPath(o, current) == NamesPath(o, parent) + [Separator] + o[current].name;
      assert NamesPath(o, current) + builder == NamesPath(o, parent) + ([Separator] + o[current].name + builder);
      builder := [Separator] + o[current].name + builder;
      current := parent;
    }
    ParentlessIsRoot(o, current);
    s := builder;
  }

  /** `UnescapeText`: each entry of the escape table replaced in turn. */
  method UnescapeText(escapedText: string) returns (ret: string)
    ensures ret == Unescape(escapedText)
  {
    ret := escapedText;
    var i := 0;
    while i < |EscapeTable|
      invariant 0 <= i <= |EscapeTable|
      invariant ret == UnescapePrefix(escapedText, i)
    {
      PatternsStartWithBackslash();
      ret := Replace(ret, EscapeTable[i].0, EscapeTable[i].1);
      i := i + 1;
    }
  }

  /** `GetContentArgument`: the arguments after the path, each unescaped, joined by the delimiter `|`. */
  method GetContentArgument(arguments: seq<string>) returns (content: string)
    ensures content == JoinedData(arguments)
  {
    content := "";
    var first := true;
    var i := 1;
    while i < |arguments|
      invariant 1 <= i <= |arguments| || (arguments == [] && i == 1)
      invariant first <==> i == 1
      invariant arguments != [] ==> content == UnescapedJoin(DataArguments(arguments), i - 1, "|")
      invariant arguments == [] ==> content == ""
    {
      JoinStep(DataArguments(arguments), i - 1, "|");
      if first {
        first := false;
      } else {
        content := content + "|";
      }
      var text := UnescapeText(arguments[i]);
      content := content + text;
      i := i + 1;
    }
  }
  // ---------------------------------------------------------------------------------------------
  // Saving

  /** The objects of `order` lie in the tree under the root. */
  predicate AllUnder(o: Objects, order: seq<nat>)
    requires WellFormed(o)
  {
    forall i :: 0 <= i < |order| ==> order[i] in o && Under(o, order[i], RootId)
  }

  /** `order` lists, once each, every object under the root but the root: the objects the recursive walk of
      `GetFileSystemObjectsRecursive` visits, in the order it visits them. */
  predicate Visits(o: Objects, order: seq<nat>)
    requires WellFormed(o)
  {
    && Distinct(order) && AllUnder(o, order) && RootId !in order
    && forall x :: x in o && x != RootId && Under(o, x, RootId) ==> x in order
  }

  /** The full paths of the visited directories, in visiting order (the walk's `HashSet` of paths). */
  function DirectoryPaths(o: Objects, order: seq<nat>): seq<string>
    requires WellFormed(o) && AllUnder(o, order)
    decreases |order|
  {
    if order == [] then []
    else
      var x := order[0];
      (if o[x].kind == Directory then [FullPath(o, x)] else []) + DirectoryPaths(o, order[1..])
  }

  /** The full path and content of each visited file, in visiting order (the walk's `Dictionary`). */
  function FileEntries(o: Objects, order: seq<nat>): seq<(string, string)>
    requires WellFormed(o) && AllUnder(o, order)
    decreases |order|
  {
    if order == [] then []
    else
      var x := order[0];
      (if o[x].kind == File then [(FullPath(o, x), o[x].content)] else []) + FileEntries(o, order[1..])
  }

  /** What `Save` collects from the tree. */
  function Collected(o: Objects, order: seq<nat>): Entries
    requires WellFormed(o) && AllUnder(o, order)
  {
    Entries(DirectoryPaths(o, order), FileEntries(o, order))
  }

  /** Two objects of the tree under the root with the same chain of names are the same object: each is
      filed under its name in its parent, and a name holds no separator. */
  lemma {:induction false} NamesPathInjective(o: Objects, x: nat, y: nat)
    requires WellFormed(o) && x in o && y in o && Under(o, x, RootId) && Under(o, y, RootId)
    requires NamesPath(o, x) == NamesPath(o, y)
    ensures x == y
    decreases x + y
  {
    if x != RootId && y != RootId {
      assert ParentOk(o, x) && ParentOk(o, y);
      var px, py := o[x].parent.value, o[y].parent.value;
      assert NameOk(o[x].name) && NameOk(o[y].name);
      SplitAtLast(NamesPath(o, px), o[x].name, NamesPath(o, py), o[y].name, Separator);
      NamesPathInjective(o, px, py);
    }
  }

  /** Different objects of the tree under the root have different full paths. */
  lemma FullPathsDiffer(o: Objects, x: nat, y: nat)
    requires WellFormed(o) && x in o && y in o && Under(o, x, RootId) && Under(o, y, RootId)
    ensures FullPath(o, x) == FullPath(o, y) ==> x == y
  {
    if x != RootId && y != RootId && FullPath(o, x) == FullPath(o, y) {
      NamesPathInjective(o, x, y);
    }
  }

  /** The path of each file entry, placed in front. */
  lemma PathsCons(f: (string, string), files: seq<(string, string)>)
    ensures Paths([f] + files) == [f.0] + Paths(files)
  {
  }

  /** The path of an object the walk does not visit is not among the collected paths. */
  lemma {:induction false} PathNotCollected(o: Objects, order: seq<nat>, x: nat)
    requires WellFormed(o) && AllUnder(o, order) && x in o && Under(o, x, RootId) && x !in order
    ensures FullPath(o, x) !in DirectoryPaths(o, order)
    ensures FullPath(o, x) !in Paths(FileEntries(o, order))
    decreases |order|
  {
    if order != [] {
      var y := order[0];
      FullPathsDiffer(o, x, y);
      PathNotCollected(o, order[1..], x);
      if o[y].kind == File {
        PathsCons((FullPath(o, y), o[y].content), FileEntries(o, order[1..]));
      }
    }
  }

  /** The walk visits each object once, so no directory path and no file path is collected twice: neither
      the `HashSet` nor the `Dictionary.Add` of the walk meets a repeat. */
  lemma {:induction false} CollectedDistinct(o: Objects, order: seq<nat>)
    requires WellFormed(o) && AllUnder(o, order) && Distinct(order)
    ensures Distinct(DirectoryPaths(o, order)) && Distinct(Paths(FileEntries(o, order)))
    decreases |order|
  {
    if order != [] {
      var x, rest := order[0], order[1..];
      assert Distinct(rest) by {
        forall i, j | 0 <= i < j < |rest| ensures rest[i] != rest[j] {
          assert rest[i] == order[i + 1] && rest[j] == order[j + 1];
        }
      }
      assert x !in rest;
      CollectedDistinct(o, rest);
      PathNotCollected(o, rest, x);
      var p := FullPath(o, x);
      if o[x].kind == Directory {
        DistinctCons(p, DirectoryPaths(o, rest));
      } else {
        PathsCons((p, o[x].content), FileEntries(o, rest));
        DistinctCons(p, Paths(FileEntries(o, rest)));
      }
    }
  }

  /** Each visited directory's path and each visited file's path and content are collected. */
  lemma {:induction false} CollectedHolds(o: Objects, order: seq<nat>, k: nat)
    requires WellFormed(o) && AllUnder(o, order) && k < |order|
    ensures o[order[k]].kind == Directory ==> FullPath(o, order[k]) in DirectoryPaths(o, order)
    ensures o[order[k]].kind == File ==>
      (FullPath(o, order[k]), o[order[k]].content) in FileEntries(o, order)
    decreases k
  {
    if k > 0 {
      assert order[1..][k - 1] == order[k];
      CollectedHolds(o, order[1..], k - 1);
    }
  }

  /** Every directory and file of the tree, with its full path (and a file with its content), is in what
      `Save` collects. */
  lemma TreeCollected(o: Objects, order: seq<nat>, x: nat)
    requires WellFormed(o) && Visits(o, order) && x in o && x != RootId && Under(o, x, RootId)
    ensures o[x].kind == Directory ==> FullPath(o, x) in Collected(o, order).directories
    ensures o[x].kind == File ==> (FullPath(o, x), o[x].content) in Collected(o, order).files
  {
    var k :| 0 <= k < |order| && order[k] == x;
    CollectedHolds(o, order, k);
  }

  /** The directory paths up to and including the `i`-th: those before it, then its string; no longer
      than all of them. */
  lemma DirectoriesPrefix(dirs: seq<string>, i: nat, utf8: string -> Utf8)
    requires i < |dirs|
    ensures DirectoriesBytes(dirs[..i + 1], utf8) == DirectoriesBytes(dirs[..i], utf8) + StringBytes(utf8(dirs[i]))
    ensures |DirectoriesBytes(dirs[..i + 1], utf8)| <= |DirectoriesBytes(dirs, utf8)|
  {
    DirectoriesBytesSnoc(dirs[..i], dirs[i], utf8);
    assert dirs[..i + 1] == dirs[..i] + [dirs[i]];
    DirectoriesBytesAppend(dirs[..i + 1], dirs[i + 1..], utf8);
    assert dirs[..i + 1] + dirs[i + 1..] == dirs;
  }

  /** The file entries up to and including the `j`-th: those before it, then its path and content; no
      longer than all of them. */
  lemma FilesPrefix(files: seq<(string, string)>, j: nat, utf8: string -> Utf8)
    requires j < |files|
    ensures FilesBytes(files[..j + 1], utf8)
      == FilesBytes(files[..j], utf8) + StringBytes(utf8(files[j].0)) + StringBytes(utf8(files[j].1))
    ensures |FilesBytes(files[..j + 1], utf8)| <= |FilesBytes(files, utf8)|
  {
    FilesBytesSnoc(files[..j], files[j], utf8);
    assert files[..j + 1] == files[..j] + [files[j]];
    FilesBytesAppend(files[..j + 1], files[j + 1..], utf8);
    assert files[..j + 1] + files[j + 1..] == files;
  }

  /** The loop of `Save` over the directory paths, each written as a string. */
  method WriteDirectories(serializer: StorageDataSerializer, dirs: seq<string>, utf8: string -> Utf8)
    requires |serializer.data| + |DirectoriesBytes(dirs, utf8)| < Two32 && serializer.storageString == None
    modifies serializer`data, serializer`storageString
    ensures serializer.data == old(serializer.data) + DirectoriesBytes(dirs, utf8) && serializer.storageString == None
  {
    ghost var start := serializer.data;
    var i := 0;
    while i < |dirs|
      invariant 0 <= i <= |dirs|
      invariant serializer.data == start + DirectoriesBytes(dirs[..i], utf8)
      invariant serializer.storageString == None
    {
      DirectoriesPrefix(dirs, i, utf8);
      var _ := serializer.WriteString(Some(utf8(dirs[i])));
      i := i + 1;
    }
    assert dirs[..|dirs|] == dirs;
  }

  /** One round of the loop of `Save` over the file entries: the path, then the content. */
  method WriteFile(serializer: StorageDataSerializer, path: Utf8, content: Utf8)
    requires |serializer.data| + |StringBytes(path)| + |StringBytes(content)| < Two32
    modifies serializer`data, serializer`storageString
    ensures serializer.data == old(serializer.data) + StringBytes(path) + StringBytes(content)
    ensures serializer.storageString == None
  {
    var _ := serializer.WriteString(Some(path));
    var _ := serializer.WriteString(Some(content));
  }

  /** The loop of `Save` over the file entries. */
  method WriteFiles(serializer: StorageDataSerializer, files: seq<(string, string)>, utf8: string -> Utf8)
    requires |serializer.data| + |FilesBytes(files, utf8)| < Two32 && serializer.storageString == None
    modifies serializer`data, serializer`storageString
    ensures serializer.data == old(serializer.data) + FilesBytes(files, utf8) && serializer.storageString == None
  {
    ghost var start := serializer.data;
    var j := 0;
    while j < |files|
      invariant 0 <= j <= |files|
      invariant serializer.data == start + FilesBytes(files[..j], utf8)
      invariant serializer.storageString == None
    {
      FilesPrefix(files, j, utf8);
      WriteFile(serializer, utf8(files[j].0), utf8(files[j].1));
      j := j + 1;
    }
    assert files[..|files|] == files;
  }

  /** The writing half of `Save`: the magic, the two counts, the directory paths, then the file entries,
      written one after another into a new serializer, whose storage string is the new storage. */
  method SaveEntries(e: Entries, utf8: string -> Utf8) returns (storage: string)
    requires |e.directories| < Two32 / 2 && |e.files| < Two32 / 2
    requires |SaveBytes(e, utf8)| < Two32
    ensures storage == HexEncode(SaveBytes(e, utf8))
  {
    ghost var dirs, files := DirectoriesBytes(e.directories, utf8), FilesBytes(e.files, utf8);
    ghost var header := LittleEndian32(Magic) + LittleEndian32(|e.directories|) + LittleEndian32(|e.files|);
    assert SaveBytes(e, utf8) == header + dirs + files;
    var serializer := new StorageDataSerializer();
    serializer.WriteUInt32(Magic);
    assert serializer.data == LittleEndian32(Magic);
    serializer.WriteInt32(|e.directories|);
    serializer.WriteInt32(|e.files|);
    assert serializer.data == header;
    WriteDirectories(serializer, e.directories, utf8);
    WriteFiles(serializer, e.files, utf8);
    assert serializer.data == SaveBytes(e, utf8);
    storage := serializer.StorageString();
  }

  /** `Save`: the entries `GetFileSystemObjectsRecursive` collects from the root, written by `SaveEntries`. */
  method SaveTree(o: Objects, order: seq<nat>, utf8: string -> Utf8) returns (storage: string)
    requires WellFormed(o) && Visits(o, order)
    requires |Collected(o, order).directories| < Two32 / 2 && |Collected(o, order).files| < Two32 / 2
    requires |SaveBytes(Collected(o, order), utf8)| < Two32
    ensures storage == HexEncode(SaveBytes(Collected(o, order), utf8))
  {
    storage := SaveEntries(Collected(o, order), utf8);
  }

  /** What `Save` stores for a tree loads as the rebuild of the collected entries, in their order. */
  lemma SavedTreeLoads(o: Objects, order: seq<nat>, utf8: string -> Utf8, decode: seq<byte> -> string)
    requires WellFormed(o) && Visits(o, order)
    requires |Collected(o, order).directories| < Two32 / 2 && |Collected(o, order).files| < Two32 / 2
    requires |SaveBytes(Collected(o, order), utf8)| < Two32
    requires forall s :: decode(utf8(s)) == s
    ensures Load(Some(HexEncode(SaveBytes(Collected(o, order), utf8))), decode) == Rebuild(Collected(o, order))
  {
    CollectedDistinct(o, order);
    SaveThenLoad(Collected(o, order), utf8, decode);
  }
  // ---------------------------------------------------------------------------------------------
  // The program's state

  /** The program: its tree of objects (with the id the next new object gets), its current directory and
      the block's storage string. Each operation is invoked on an object of the tree, named by its id. */
  class FileSystemProgram {
    var objects: Objects
    var nextId: nat
    var currentDirectory: nat
    var storage: NullableString

    /** The tree is well formed, its ids are fresh, and the current directory is one of its directories. */
    ghost predicate Valid()
      reads this
    {
      Fresh(objects, nextId) && currentDirectory in objects && objects[currentDirectory].kind == Directory
    }

    /** A program on the block's storage string: the root directory as the loader leaves it, and the root
        as the current directory. */
    constructor (storage: NullableString, decode: seq<byte> -> string)
      ensures Valid()
      ensures objects == Load(storage, decode).objects && nextId == Load(storage, decode).nextId
      ensures currentDirectory == RootId && this.storage == storage
    {
      var b := LoadTree(storage, decode);
      objects := b.objects;
      nextId := b.nextId;
      currentDirectory := RootId;
      this.storage := storage;
    }

    /** The `CurrentDirectory` setter: `null` selects the root. */
    method SetCurrentDirectory(value: Option<nat>)
      requires Valid() && (value.Some? ==> value.value in objects && objects[value.value].kind == Directory)
      modifies this`currentDirectory
      ensures Valid()
      ensures currentDirectory == if value.None? then RootId else value.value
    {
      currentDirectory := if value.None? then RootId else value.value;
    }

    /** `GetRelativeFileSystemObject`: the walk of the path from `at` with every part accepted. */
    method GetRelativeFileSystemObject(at: nat, path: NullableString) returns (r: Result<Option<nat>, Exception>)
      requires Valid() && at in objects
      ensures r == Resolve(objects, at, path)
    {
      r := FollowPath(objects, at, path, AcceptAll);
    }

    /** `FullPath` of object `id`. */
    method GetFullPath(id: nat) returns (s: string)
      requires Valid() && id in objects
      ensures s == FullPath(objects, id)
    {
      s := BuildFullPath(objects, id);
    }

    /** `CreateDirectory(path)` on object `at`: the directories the path names, made where missing. */
    method CreateDirectory(at: nat, path: NullableString) returns (r: Result<Option<nat>, Exception>)
      requires Valid() && at in objects
      modifies this`objects, this`nextId
      ensures Valid()
      ensures var m := FileSystemTrees.CreateDirectory(old(objects), old(nextId), at, path);
        && (m.Err? ==> r == Err(m.error) && objects == old(objects) && nextId == old(nextId))
        && (m.Ok? ==> r == Ok(m.value.target) && objects == m.value.objects && nextId == m.value.nextId)
    {
      var m := FileSystemTrees.CreateDirectory(objects, nextId, at, path);
      if m.Err? {
        return Err(m.error);
      }
      objects, nextId := m.value.objects, m.value.nextId;
      return Ok(m.value.target);
    }

    /** `CreateFile(path)` on object `at`: a new file where the walk of the path stops, if it may go there. */
    method CreateFile(at: nat, path: NullableString) returns (r: Result<Option<nat>, Exception>)
      requires Valid() && at in objects
      modifies this`objects, this`nextId
      ensures Valid()
      ensures var c := NewFile(old(objects), old(nextId), at, path);
        && (c.Err? ==> r == Err(c.error) && objects == old(objects) && nextId == old(nextId))
        && (c.Ok? ==> r == Ok(c.value.file) && objects == c.value.objects && nextId == c.value.nextId)
    {
      var c := NewFile(objects, nextId, at, path);
      if c.Err? {
        return Err(c.error);
      }
      objects, nextId := c.value.objects, c.value.nextId;
      return Ok(c.value.file);
    }

    /** `Clear()` on object `at`: it and everything filed below it emptied. */
    method Clear(at: nat)
      requires Valid() && at in objects
      modifies this`objects
      ensures Valid()
      ensures objects == Cleared(old(objects), at)
    {
      ClearedWellFormed(objects, at);
      objects := Cleared(objects, at);
    }

    /** `Delete(path)` on object `at`: what the path leads to, cleared and removed from its parent. */
    method Delete(at: nat, path: NullableString) returns (r: Result<bool, Exception>)
      requires Valid() && at in objects
      modifies this`objects
      ensures Valid()
      ensures var d := DeletePath(old(objects), at, path);
        && (d.Err? ==> r == Err(d.error) && objects == old(objects))
        && (d.Ok? ==> r == Ok(d.value.1) && objects == d.value.0)
    {
      var d := DeletePath(objects, at, path);
      if d.Err? {
        return Err(d.error);
      }
      DeleteKeepsKinds(objects, at, path, currentDirectory);
      objects := d.value.0;
      return Ok(d.value.1);
    }

    /** `Delete()` on object `id`: its parent deletes its name. */
    method DeleteSelf(id: nat) returns (deleted: bool)
      requires Valid() && id in objects
      modifies this`objects
      ensures Valid()
      ensures (objects, deleted) == FileSystemTrees.DeleteSelf(old(objects), id)
    {
      var d := FileSystemTrees.DeleteSelf(objects, id);
      DeleteSelfKeepsKinds(objects, id, currentDirectory);
      objects, deleted := d.0, d.1;
    }

    /** `Write(content)` on object `id`. */
    method Write(id: nat, content: NullableString) returns (r: Result<bool, Exception>)
      requires Valid() && id in objects
      modifies this`objects
      ensures Valid()
      ensures var w := WriteContent(old(objects), id, content);
        && (w.Err? ==> r == Err(w.error) && objects == old(objects))
        && (w.Ok? ==> r == Ok(w.value.1) && objects == w.value.0)
    {
      var w := WriteContent(objects, id, content);
      if w.Err? {
        return Err(w.error);
      }
      objects := w.value.0;
      return Ok(w.value.1);
    }

    /** `Append(content)` on object `id`. */
    method Append(id: nat, content: NullableString) returns (r: Result<bool, Exception>)
      requires Valid() && id in objects
      modifies this`objects
      ensures Valid()
      ensures var w := AppendContent(old(objects), id, content);
        && (w.Err? ==> r == Err(w.error) && objects == old(objects))
        && (w.Ok? ==> r == Ok(w.value.1) && objects == w.value.0)
    {
      var w := AppendContent(objects, id, content);
      if w.Err? {
        return Err(w.error);
      }
      objects := w.value.0;
      return Ok(w.value.1);
    }

    /** `Save()`, given the order in which the walk visits the tree under the root: the storage string of
        the collected entries. */
    method Save(order: seq<nat>, utf8: string -> Utf8)
      requires Valid() && Visits(objects, order)
      requires |Collected(objects, order).directories| < Two32 / 2 && |Collected(objects, order).files| < Two32 / 2
      requires |SaveBytes(Collected(objects, order), utf8)| < Two32
      modifies this`storage
      ensures Valid()
      ensures storage == Some(HexEncode(SaveBytes(Collected(objects, order), utf8)))
    {
      var s := SaveTree(objects, order, utf8);
      storage := Some(s);
    }
  }
}
