/**
 * The save format of the file-system program and the reading phase of its loader.
 *
 * A save is the storage encoding of: the magic `0x53464553`, the number of directories, the number of
 * files, each directory's full path, then each file's full path and content. Strings are written as their
 * UTF-8 bytes; the encoder (`utf8`) and the decoder (`decode`) are parameters of the model.
 */
module FileSystemSaves {
  import opened Wrappers
  import opened Ints
  import opened Errors
  import opened Seqs
  import opened Text
  import opened StorageSerializer

  /** The first `Int32` of a save. */
  const Magic: int := 0x53464553

  /** The UTF-8 bytes of a .NET string: an array, so fewer than `int.MaxValue + 1` of them. */
  type Utf8 = b: seq<byte> | |b| < Two32 / 2

  /** What a save holds, in the order written: the directory paths, then each file's path and content. */
  datatype Entries = Entries(directories: seq<string>, files: seq<(string, string)>)

  /** The paths of the file entries. */
  function Paths(files: seq<(string, string)>): (r: seq<string>)
    ensures |r| == |files| && forall i :: 0 <= i < |files| ==> r[i] == files[i].0
  {
    seq(|files|, i requires 0 <= i < |files| => files[i].0)
  }

  // ---------------------------------------------------------------------------------------------
  // The save format

  /** `WriteString`: the byte count as an `Int32`, then the bytes. */
  function StringBytes(b: Utf8): (r: seq<byte>)
    ensures |r| == 4 + |b|
  {
    LittleEndian32(|b|) + b
  }

  /** The directory paths, each written as a string. */
  function DirectoriesBytes(dirs: seq<string>, utf8: string -> Utf8): seq<byte> {
    if dirs == [] then [] else StringBytes(utf8(dirs[0])) + DirectoriesBytes(dirs[1..], utf8)
  }

  /** The file entries, each written as its path, then its content. */
  function FilesBytes(files: seq<(string, string)>, utf8: string -> Utf8): seq<byte> {
    if files == [] then []
    else StringBytes(utf8(files[0].0)) + StringBytes(utf8(files[0].1)) + FilesBytes(files[1..], utf8)
  }

  /** The bytes `Save` writes: the magic, the two counts, the directory paths, then the file entries. */
  function SaveBytes(e: Entries, utf8: string -> Utf8): seq<byte>
    requires |e.directories| < Two32 / 2 && |e.files| < Two32 / 2
  {
    LittleEndian32(Magic) + LittleEndian32(|e.directories|) + LittleEndian32(|e.files|)
      + DirectoriesBytes(e.directories, utf8) + FilesBytes(e.files, utf8)
  }

  /** Writing one more directory path adds its string at the end. */
  lemma {:induction false} DirectoriesBytesSnoc(dirs: seq<string>, d: string, utf8: string -> Utf8)
    ensures DirectoriesBytes(dirs + [d], utf8) == DirectoriesBytes(dirs, utf8) + StringBytes(utf8(d))
  {
    if dirs != [] {
      assert (dirs + [d])[1..] == dirs[1..] + [d];
      DirectoriesBytesSnoc(dirs[1..], d, utf8);
    } else {
      assert DirectoriesBytes([d], utf8) == StringBytes(utf8(d)) + DirectoriesBytes([], utf8);
    }
  }

  /** Writing one more file entry adds its path and content at the end. */
  lemma {:induction false} FilesBytesSnoc(files: seq<(string, string)>, f: (string, string), utf8: string -> Utf8)
    ensures FilesBytes(files + [f], utf8) == FilesBytes(files, utf8) + StringBytes(utf8(f.0)) + StringBytes(utf8(f.1))
  {
    if files != [] {
      assert (files + [f])[1..] == files[1..] + [f];
      FilesBytesSnoc(files[1..], f, utf8);
    } else {
      assert FilesBytes([f], utf8) == StringBytes(utf8(f.0)) + StringBytes(utf8(f.1)) + FilesBytes([], utf8);
    }
  }

  /** The directory paths of two runs are written one after the other. */
  lemma {:induction false} DirectoriesBytesAppend(a: seq<string>, b: seq<string>, utf8: string -> Utf8)
    ensures DirectoriesBytes(a + b, utf8) == DirectoriesBytes(a, utf8) + DirectoriesBytes(b, utf8)
  {
    if a != [] {
      assert (a + b)[1..] == a[1..] + b;
      DirectoriesBytesAppend(a[1..], b, utf8);
    } else {
      assert a + b == b;
    }
  }

  /** The file entries of two runs are written one after the other. */
  lemma {:induction false} FilesBytesAppend(a: seq<(string, string)>, b: seq<(string, string)>, utf8: string -> Utf8)
    ensures FilesBytes(a + b, utf8) == FilesBytes(a, utf8) + FilesBytes(b, utf8)
  {
    if a != [] {
      assert (a + b)[1..] == a[1..] + b;
      FilesBytesAppend(a[1..], b, utf8);
    } else {
      assert a + b == b;
    }
  }

  // ---------------------------------------------------------------------------------------------
  // Reading a save

  /** `ReadString` at `pos` up to the decoding: the bytes of the string and the position after them. */
  function StringAt(data: seq<byte>, pos: nat): (r: Result<(seq<byte>, nat), Exception>)
    requires pos <= |data|
    ensures r.Ok? ==> pos + 4 + |r.value.0| == r.value.1 <= |data| && data[pos + 4..r.value.1] == r.value.0
  {
    if pos + 4 > |data| then Err(InvalidOperationException(PositionExceeded))
    else
      var n := FromLittleEndianSigned(data[pos..pos + 4]);
      var start := pos + 4;
      if n < 0 then Err(OverflowException)
      else if start + n > |data| then Err(ArgumentException("Can't read more than " + IntToString(|data| - start) + " bytes."))
      else Ok((data[start..start + n], start + n))
  }

  /** The loader's loop over the `count` remaining directory paths, adding each to `seen` (its `HashSet`,
      which refuses a path it already holds). */
  function ReadDirectories(data: seq<byte>, pos: nat, count: nat, decode: seq<byte> -> string, seen: seq<string>)
    : (r: Result<(seq<string>, nat), Exception>)
    requires pos <= |data|
    ensures r.Ok? ==> r.value.1 <= |data|
    decreases count
  {
    if count == 0 then Ok((seen, pos))
    else
      match StringAt(data, pos)
      case Err(e) => Err(e)
      case Ok((b, next)) =>
        var path := decode(b);
        if path in seen then Err(FormatException("Duplicate directory entry \"" + path + "\""))
        else ReadDirectories(data, next, count - 1, decode, seen + [path])
  }

  /** The loader's loop over the `count` remaining file entries, each a path and a content, refusing a path
      it already holds once both are read. */
  function ReadFiles(data: seq<byte>, pos: nat, count: nat, decode: seq<byte> -> string, seen: seq<(string, string)>)
    : (r: Result<(seq<(string, string)>, nat), Exception>)
    requires pos <= |data|
    ensures r.Ok? ==> r.value.1 <= |data|
    decreases count
  {
    if count == 0 then Ok((seen, pos))
    else
      match StringAt(data, pos)
      case Err(e) => Err(e)
      case Ok((b, next)) =>
        match StringAt(data, next)
        case Err(e) => Err(e)
        case Ok((c, after)) =>
          var path := decode(b);
          if path in Paths(seen) then Err(FormatException("Duplicate file entry \"" + path + "\""))
          else ReadFiles(data, after, count - 1, decode, seen + [(path, decode(c))])
  }

  /** The reading phase of the loader: a first `Int32` other than the magic reads nothing more (`None`);
      otherwise the two `UInt32` counts, the directory paths and the file entries follow. */
  function ParseSave(data: seq<byte>, decode: seq<byte> -> string): (r: Result<Option<Entries>, Exception>)
    ensures |data| < 4 ==> r == Err(InvalidOperationException(PositionExceeded))
    ensures |data| >= 4 && FromLittleEndianSigned(data[..4]) != Magic ==> r == Ok(None)
  {
    if |data| < 4 then Err(InvalidOperationException(PositionExceeded))
    else if FromLittleEndianSigned(data[..4]) != Magic then Ok(None)
    else if |data| < 12 then Err(InvalidOperationException(PositionExceeded))
    else
      match ReadDirectories(data, 12, FromLittleEndian32(data[4..8]), decode, [])
      case Err(e) => Err(e)
      case Ok((dirs, pos)) =>
        match ReadFiles(data, pos, FromLittleEndian32(data[8..12]), decode, [])
        case Err(e) => Err(e)
        case Ok((files, _)) => Ok(Some(Entries(dirs, files)))
  }

  /** A string written at `pos` reads back as its bytes. */
  lemma StringAtBytes(data: seq<byte>, pos: nat, b: Utf8)
    requires pos + 4 + |b| <= |data| && data[pos..pos + 4 + |b|] == StringBytes(b)
    ensures StringAt(data, pos) == Ok((b, pos + 4 + |b|))
  {
    assert data[pos..pos + 4] == StringBytes(b)[..4] == LittleEndian32(|b|);
    SignedRoundTrip32(|b|);
    assert data[pos + 4..pos + 4 + |b|] == StringBytes(b)[4..] == b;
  }

  /** A piece at the front of a written piece. */
  lemma SliceFront(data: seq<byte>, pos: nat, a: seq<byte>, b: seq<byte>)
    requires pos + |a| + |b| <= |data| && data[pos..pos + |a| + |b|] == a + b
    ensures data[pos..pos + |a|] == a && data[pos + |a|..pos + |a| + |b|] == b
  {
    assert data[pos..pos + |a|] == data[pos..pos + |a| + |b|][..|a|];
    assert data[pos + |a|..pos + |a| + |b|] == data[pos..pos + |a| + |b|][|a|..];
  }

  /** Written directory paths read back in order, when none repeats another or one seen before. */
  lemma {:induction false} ReadWrittenDirectories(data: seq<byte>, pos: nat, dirs: seq<string>, utf8: string -> Utf8,
                                                  decode: seq<byte> -> string, seen: seq<string>)
    requires forall s :: decode(utf8(s)) == s
    requires Distinct(dirs) && forall i :: 0 <= i < |dirs| ==> dirs[i] !in seen
    requires pos + |DirectoriesBytes(dirs, utf8)| <= |data|
    requires data[pos..pos + |DirectoriesBytes(dirs, utf8)|] == DirectoriesBytes(dirs, utf8)
    ensures ReadDirectories(data, pos, |dirs|, decode, seen) == Ok((seen + dirs, pos + |DirectoriesBytes(dirs, utf8)|))
    decreases |dirs|
  {
    if dirs == [] {
      assert seen + dirs == seen;
    } else {
      var rest := dirs[1..];
      var next := DirectoryEntryLayout(data, pos, dirs, utf8);
      RestOfDirectories(dirs, seen);
      ReadWrittenDirectories(data, next, rest, utf8, decode, seen + [dirs[0]]);
      ReadDirectoriesStep(data, pos, |dirs|, decode, seen, utf8(dirs[0]), next);
      assert decode(utf8(dirs[0])) == dirs[0];
      assert (seen + [dirs[0]]) + rest == seen + dirs;
    }
  }

  /** One round of the directory loop that reads a new path. */
  lemma ReadDirectoriesStep(data: seq<byte>, pos: nat, count: nat, decode: seq<byte> -> string, seen: seq<string>,
                            b: seq<byte>, next: nat)
    requires pos <= |data| && count > 0
    requires StringAt(data, pos) == Ok((b, next)) && decode(b) !in seen
    ensures next <= |data|
    ensures ReadDirectories(data, pos, count, decode, seen) == ReadDirectories(data, next, count - 1, decode, seen + [decode(b)])
  {
  }

  /** The conditions of `ReadWrittenDirectories` carry over to the remaining paths. */
  lemma RestOfDirectories(dirs: seq<string>, seen: seq<string>)
    requires dirs != []
    requires Distinct(dirs) && forall i :: 0 <= i < |dirs| ==> dirs[i] !in seen
    ensures var rest := dirs[1..];
      Distinct(rest) && forall i :: 0 <= i < |rest| ==> rest[i] !in seen + [dirs[0]]
  {
    var rest := dirs[1..];
    forall i | 0 <= i < |rest| ensures rest[i] !in seen + [dirs[0]] {
      assert rest[i] == dirs[i + 1];
    }
    forall i, j | 0 <= i < j < |rest| ensures rest[i] != rest[j] {
      assert rest[i] == dirs[i + 1] && rest[j] == dirs[j + 1];
    }
  }

  /** Written file entries read back in order, when no path repeats another or one seen before: the loop
      ends with `all`, the entries seen before and then these, at `end`, right after them. */
  lemma {:induction false} ReadWrittenFiles(data: seq<byte>, pos: nat, files: seq<(string, string)>, utf8: string -> Utf8,
                                            decode: seq<byte> -> string, seen: seq<(string, string)>,
                                            all: seq<(string, string)>, end: nat)
    requires forall s :: decode(utf8(s)) == s
    requires Distinct(Paths(files)) && forall i :: 0 <= i < |files| ==> files[i].0 !in Paths(seen)
    requires end == pos + |FilesBytes(files, utf8)| <= |data|
    requires data[pos..end] == FilesBytes(files, utf8)
    requires all == seen + files
    ensures ReadFiles(data, pos, |files|, decode, seen) == Ok((all, end))
    decreases |files|
  {
    if files == [] {
      assert all == seen;
    } else {
      var rest := files[1..];
      var after := FileEntryLayout(data, pos, files, utf8);
      RestOfFiles(files, seen);
      assert all == (seen + [files[0]]) + rest;
      ReadWrittenFiles(data, after, rest, utf8, decode, seen + [files[0]], all, end);
      FileEntryStep(data, pos, files, utf8, decode, seen, after);
    }
  }

  /** The entries after the first of written file entries lie right after it. */
  lemma FileEntryLayout(data: seq<byte>, pos: nat, files: seq<(string, string)>, utf8: string -> Utf8)
    returns (after: nat)
    requires files != []
    requires pos + |FilesBytes(files, utf8)| <= |data|
    requires data[pos..pos + |FilesBytes(files, utf8)|] == FilesBytes(files, utf8)
    ensures after == pos + 8 + |utf8(files[0].0)| + |utf8(files[0].1)|
    ensures after + |FilesBytes(files[1..], utf8)| == pos + |FilesBytes(files, utf8)|
    ensures data[after..after + |FilesBytes(files[1..], utf8)|] == FilesBytes(files[1..], utf8)
  {
    var entry := StringBytes(utf8(files[0].0)) + StringBytes(utf8(files[0].1));
    SliceFront(data, pos, entry, FilesBytes(files[1..], utf8));
    after := pos + |entry|;
  }

  /** The first written file entry reads back as itself, and the loop goes on after it. */
  lemma FileEntryStep(data: seq<byte>, pos: nat, files: seq<(string, string)>, utf8: string -> Utf8,
                      decode: seq<byte> -> string, seen: seq<(string, string)>, after: nat)
    requires forall s :: decode(utf8(s)) == s
    requires files != [] && files[0].0 !in Paths(seen)
    requires pos + |FilesBytes(files, utf8)| <= |data|
    requires data[pos..pos + |FilesBytes(files, utf8)|] == FilesBytes(files, utf8)
    requires after == pos + 8 + |utf8(files[0].0)| + |utf8(files[0].1)|
    ensures after <= |data|
    ensures ReadFiles(data, pos, |files|, decode, seen) == ReadFiles(data, after, |files[1..]|, decode, seen + [files[0]])
  {
    var f := files[0];
    var b, c := utf8(f.0), utf8(f.1);
    var restBytes := FilesBytes(files[1..], utf8);
    assert FilesBytes(files, utf8) == StringBytes(b) + StringBytes(c) + restBytes;
    FileEntryAt(data, pos, b, c, restBytes, pos + 4 + |b|, pos + 8 + |b| + |c|, pos + 8 + |b| + |c| + |restBytes|);
    assert f == (decode(b), decode(c));
    ReadFilesStep(data, pos, |files|, |files[1..]|, decode, seen, b, pos + 4 + |b|, c, after);
  }

  /** A file entry written at `pos` reads back as its two strings, and what follows comes after them. */
  lemma FileEntryAt(data: seq<byte>, pos: nat, b: Utf8, c: Utf8, rest: seq<byte>, mid: nat, end: nat, stop: nat)
    requires mid == pos + 4 + |b| && end == mid + 4 + |c| && stop == end + |rest| <= |data|
    requires data[pos..stop] == StringBytes(b) + StringBytes(c) + rest
    ensures StringAt(data, pos) == Ok((b, mid)) && StringAt(data, mid) == Ok((c, end))
    ensures data[end..stop] == rest
  {
    var sb, sc := StringBytes(b), StringBytes(c);
    assert sb + sc + rest == sb + (sc + rest);
    SliceFront(data, pos, sb, sc + rest);
    StringAtBytes(data, pos, b);
    SliceFront(data, mid, sc, rest);
    StringAtBytes(data, mid, c);
  }

  /** One round of the file loop that reads a new path. */
  lemma ReadFilesStep(data: seq<byte>, pos: nat, count: nat, rest: nat, decode: seq<byte> -> string,
                      seen: seq<(string, string)>, b: seq<byte>, next: nat, c: seq<byte>, after: nat)
    requires pos <= |data| && count == rest + 1
    requires StringAt(data, pos) == Ok((b, next)) && StringAt(data, next) == Ok((c, after))
    requires decode(b) !in Paths(seen)
    ensures after <= |data|
    ensures ReadFiles(data, pos, count, decode, seen) == ReadFiles(data, after, rest, decode, seen + [(decode(b), decode(c))])
  {
  }

  /** The conditions of `ReadWrittenFiles` carry over to the remaining entries. */
  lemma RestOfFiles(files: seq<(string, string)>, seen: seq<(string, string)>)
    requires files != []
    requires Distinct(Paths(files)) && forall i :: 0 <= i < |files| ==> files[i].0 !in Paths(seen)
    ensures var rest := files[1..];
      Distinct(Paths(rest)) && forall i :: 0 <= i < |rest| ==> rest[i].0 !in Paths(seen + [files[0]])
  {
    var rest := files[1..];
    var seen1 := seen + [files[0]];
    assert Paths(seen1) == Paths(seen) + [files[0].0];
    forall i | 0 <= i < |rest| ensures rest[i].0 !in Paths(seen1) {
      assert rest[i] == files[i + 1];
      assert Paths(files)[i + 1] != Paths(files)[0];
    }
    forall i, j | 0 <= i < j < |rest| ensures Paths(rest)[i] != Paths(rest)[j] {
      assert Paths(rest)[i] == Paths(files)[i + 1] && Paths(rest)[j] == Paths(files)[j + 1];
    }
  }

  /** The save round trip: what `Save` writes, the loader reads back, entry for entry and in order, when
      decoding undoes the encoding and no path is written twice (as `Save`'s `HashSet` and `Dictionary`
      ensure). */
  lemma SaveParses(e: Entries, utf8: string -> Utf8, decode: seq<byte> -> string)
    requires |e.directories| < Two32 / 2 && |e.files| < Two32 / 2
    requires forall s :: decode(utf8(s)) == s
    requires Distinct(e.directories) && Distinct(Paths(e.files))
    ensures ParseSave(SaveBytes(e, utf8), decode) == Ok(Some(e))
  {
    SaveLayout(e, utf8);
    LaidOutParses(SaveBytes(e, utf8), e, utf8, decode);
  }

  /** Data laid out as a save, whatever else it holds, parses as the saved entries. */
  lemma LaidOutParses(data: seq<byte>, e: Entries, utf8: string -> Utf8, decode: seq<byte> -> string)
    requires forall s :: decode(utf8(s)) == s
    requires Distinct(e.directories) && Distinct(Paths(e.files))
    requires var dirs, files := DirectoriesBytes(e.directories, utf8), FilesBytes(e.files, utf8);
      && |data| == 12 + |dirs| + |files|
      && FromLittleEndianSigned(data[..4]) == Magic
      && FromLittleEndian32(data[4..8]) == |e.directories|
      && FromLittleEndian32(data[8..12]) == |e.files|
      && data[12..12 + |dirs|] == dirs
      && data[12 + |dirs|..12 + |dirs| + |files|] == files
    ensures ParseSave(data, decode) == Ok(Some(e))
  {
    var dirs, files := DirectoriesBytes(e.directories, utf8), FilesBytes(e.files, utf8);
    var next := ReadAllDirectories(data, 12, e.directories, utf8, decode);
    assert next == 12 + |dirs| && data[next..next + |files|] == files;
    ReadAllFiles(data, next, e.files, utf8, decode);
    ParsePhases(data, e, decode, next);
  }

  /** The directory loop, starting from no paths, reads back distinct written paths. */
  lemma ReadAllDirectories(data: seq<byte>, pos: nat, dirs: seq<string>, utf8: string -> Utf8, decode: seq<byte> -> string)
    returns (next: nat)
    requires forall s :: decode(utf8(s)) == s
    requires Distinct(dirs)
    requires pos + |DirectoriesBytes(dirs, utf8)| <= |data|
    requires data[pos..pos + |DirectoriesBytes(dirs, utf8)|] == DirectoriesBytes(dirs, utf8)
    ensures next == pos + |DirectoriesBytes(dirs, utf8)|
    ensures ReadDirectories(data, pos, |dirs|, decode, []) == Ok((dirs, next))
  {
    next := pos + |DirectoriesBytes(dirs, utf8)|;
    assert [] + dirs == dirs;
    ReadWrittenDirectories(data, pos, dirs, utf8, decode, []);
  }

  /** The file loop, starting from no entries, reads back written entries of distinct paths. */
  lemma ReadAllFiles(data: seq<byte>, pos: nat, files: seq<(string, string)>, utf8: string -> Utf8, decode: seq<byte> -> string)
    requires forall s :: decode(utf8(s)) == s
    requires Distinct(Paths(files))
    requires pos + |FilesBytes(files, utf8)| <= |data|
    requires data[pos..pos + |FilesBytes(files, utf8)|] == FilesBytes(files, utf8)
    ensures ReadFiles(data, pos, |files|, decode, []).Ok?
    ensures ReadFiles(data, pos, |files|, decode, []).value.0 == files
  {
    assert [] + files == files;
    assert Paths([]) == [];
    ReadWrittenFiles(data, pos, files, utf8, decode, [], files, pos + |FilesBytes(files, utf8)|);
  }

  /** The loader's reading phase succeeds with what its two loops read. */
  lemma ParsePhases(data: seq<byte>, e: Entries, decode: seq<byte> -> string, pos: nat)
    requires |data| >= 12 && FromLittleEndianSigned(data[..4]) == Magic
    requires FromLittleEndian32(data[4..8]) == |e.directories| && FromLittleEndian32(data[8..12]) == |e.files|
    requires ReadDirectories(data, 12, |e.directories|, decode, []) == Ok((e.directories, pos))
    requires pos <= |data| && ReadFiles(data, pos, |e.files|, decode, []).Ok?
    requires ReadFiles(data, pos, |e.files|, decode, []).value.0 == e.files
    ensures ParseSave(data, decode) == Ok(Some(e))
  {
  }

  /** Where the pieces of a save lie: the header's three numbers read back, and the two lists follow it. */
  lemma SaveLayout(e: Entries, utf8: string -> Utf8)
    requires |e.directories| < Two32 / 2 && |e.files| < Two32 / 2
    ensures var data, dirs, files := SaveBytes(e, utf8), DirectoriesBytes(e.directories, utf8), FilesBytes(e.files, utf8);
      && |data| == 12 + |dirs| + |files|
      && FromLittleEndianSigned(data[..4]) == Magic
      && FromLittleEndian32(data[4..8]) == |e.directories|
      && FromLittleEndian32(data[8..12]) == |e.files|
      && data[12..12 + |dirs|] == dirs
      && data[12 + |dirs|..12 + |dirs| + |files|] == files
  {
    var data := SaveBytes(e, utf8);
    var dirs := DirectoriesBytes(e.directories, utf8);
    var files := FilesBytes(e.files, utf8);
    var head := LittleEndian32(Magic) + LittleEndian32(|e.directories|) + LittleEndian32(|e.files|);
    assert data == head + dirs + files;
    assert data[..4] == LittleEndian32(Magic);
    SignedRoundTrip32(Magic);
    assert data[4..8] == LittleEndian32(|e.directories|);
    RoundTrip32(|e.directories|, data[4..8]);
    assert data[8..12] == LittleEndian32(|e.files|);
    RoundTrip32(|e.files|, data[8..12]);
    assert data[12..12 + |dirs|] == dirs;
    assert data[12 + |dirs|..12 + |dirs| + |files|] == files;
  }

  // ---------------------------------------------------------------------------------------------
  // Saves that repeat a path

  /** The index of the first element that repeats an earlier one, searching from `k` on. */
  function FirstRepeatFrom<T(==)>(s: seq<T>, k: nat): (r: nat)
    requires k <= |s| && Distinct(s[..k]) && !Distinct(s)
    ensures k <= r < |s| && Distinct(s[..r]) && s[r] in s[..r]
    decreases |s| - k
  {
    assert s[..|s|] == s;
    if s[k] in s[..k] then k
    else
      var t := s[..k + 1];
      assert Distinct(t) by {
        forall i, j | 0 <= i < j < |t| ensures t[i] != t[j] {
          if j == k {
            assert s[..k][i] == s[i];
          } else {
            assert s[..k][i] == s[i] && s[..k][j] == s[j];
          }
        }
      }
      FirstRepeatFrom(s, k + 1)
  }

  /** The first element of `s` that repeats an earlier one. */
  function FirstRepeat<T(==)>(s: seq<T>): (r: nat)
    requires !Distinct(s)
    ensures r < |s| && Distinct(s[..r]) && s[r] in s[..r]
  {
    FirstRepeatFrom(s, 0)
  }

  /** The first of written directory paths reads back as its bytes, and the rest lie right after it. */
  lemma DirectoryEntryLayout(data: seq<byte>, pos: nat, dirs: seq<string>, utf8: string -> Utf8) returns (next: nat)
    requires dirs != []
    requires pos + |DirectoriesBytes(dirs, utf8)| <= |data|
    requires data[pos..pos + |DirectoriesBytes(dirs, utf8)|] == DirectoriesBytes(dirs, utf8)
    ensures StringAt(data, pos) == Ok((utf8(dirs[0]), next))
    ensures next + |DirectoriesBytes(dirs[1..], utf8)| == pos + |DirectoriesBytes(dirs, utf8)|
    ensures data[next..next + |DirectoriesBytes(dirs[1..], utf8)|] == DirectoriesBytes(dirs[1..], utf8)
  {
    var b := utf8(dirs[0]);
    SliceFront(data, pos, StringBytes(b), DirectoriesBytes(dirs[1..], utf8));
    StringAtBytes(data, pos, b);
    next := pos + 4 + |b|;
  }

  /** The message of the loader's `FormatException` for a repeated directory path. */
  function DuplicateDirectory(path: string): Exception {
    FormatException("Duplicate directory entry \"" + path + "\"")
  }

  /** The message of the loader's `FormatException` for a repeated file path. */
  function DuplicateFile(path: string): Exception {
    FormatException("Duplicate file entry \"" + path + "\"")
  }

  /** The conditions of `RepeatedDirectoryRejected` carry over to the paths after the first. */
  lemma RestOfRepeat(dirs: seq<string>, seen: seq<string>, j: nat)
    requires 0 < j < |dirs| && Distinct(dirs[..j]) && (forall i :: 0 <= i < j ==> dirs[i] !in seen)
    requires dirs[j] in seen || dirs[j] in dirs[..j]
    ensures var rest, seen1 := dirs[1..], seen + [dirs[0]];
      && Distinct(rest[..j - 1]) && (forall i :: 0 <= i < j - 1 ==> rest[i] !in seen1)
      && (rest[j - 1] in seen1 || rest[j - 1] in rest[..j - 1])
  {
    var rest, seen1 := dirs[1..], seen + [dirs[0]];
    assert dirs[..j] == [dirs[0]] + rest[..j - 1];
    forall i | 0 <= i < j - 1 ensures rest[i] !in seen1 {
      assert dirs[..j][0] != dirs[..j][i + 1];
    }
    var t := rest[..j - 1];
    forall i, k | 0 <= i < k < |t| ensures t[i] != t[k] {
      assert dirs[..j][i + 1] != dirs[..j][k + 1];
    }
  }

  /** Written directory paths whose `j`-th repeats one before it (read now or earlier): the directory loop
      throws the duplicate-entry exception for that path. */
  lemma {:induction false} RepeatedDirectoryRejected(data: seq<byte>, pos: nat, dirs: seq<string>, utf8: string -> Utf8,
                                                     decode: seq<byte> -> string, seen: seq<string>, j: nat)
    requires forall s :: decode(utf8(s)) == s
    requires j < |dirs| && Distinct(dirs[..j]) && (forall i :: 0 <= i < j ==> dirs[i] !in seen)
    requires dirs[j] in seen || dirs[j] in dirs[..j]
    requires pos + |DirectoriesBytes(dirs, utf8)| <= |data|
    requires data[pos..pos + |DirectoriesBytes(dirs, utf8)|] == DirectoriesBytes(dirs, utf8)
    ensures ReadDirectories(data, pos, |dirs|, decode, seen) == Err(DuplicateDirectory(dirs[j]))
    decreases j
  {
    var next := DirectoryEntryLayout(data, pos, dirs, utf8);
    assert decode(utf8(dirs[0])) == dirs[0];
    if j > 0 {
      var rest, seen1 := dirs[1..], seen + [dirs[0]];
      assert dirs[0] !in seen;
      assert ReadDirectories(data, pos, |dirs|, decode, seen) == ReadDirectories(data, next, |rest|, decode, seen1);
      RestOfRepeat(dirs, seen, j);
      RepeatedDirectoryRejected(data, next, rest, utf8, decode, seen1, j - 1);
    }
  }

  /** The reading phase throws what the directory loop throws. */
  lemma DirectoriesFailParse(data: seq<byte>, decode: seq<byte> -> string, count: nat, e: Exception)
    requires |data| >= 12 && FromLittleEndianSigned(data[..4]) == Magic && FromLittleEndian32(data[4..8]) == count
    requires ReadDirectories(data, 12, count, decode, []) == Err(e)
    ensures ParseSave(data, decode) == Err(e)
  {
  }

  /** A save listing a directory path twice does not load: reading it throws the duplicate-entry
      exception for the first repeat. */
  lemma SaveWithRepeatedDirectoryFails(e: Entries, utf8: string -> Utf8, decode: seq<byte> -> string)
    requires |e.directories| < Two32 / 2 && |e.files| < Two32 / 2
    requires forall s :: decode(utf8(s)) == s
    requires !Distinct(e.directories)
    ensures ParseSave(SaveBytes(e, utf8), decode) == Err(DuplicateDirectory(e.directories[FirstRepeat(e.directories)]))
  {
    var j := FirstRepeat(e.directories);
    SaveLayout(e, utf8);
    RepeatedDirectoryRejected(SaveBytes(e, utf8), 12, e.directories, utf8, decode, [], j);
    DirectoriesFailParse(SaveBytes(e, utf8), decode, |e.directories|, DuplicateDirectory(e.directories[j]));
  }

  /** A file entry whose path was seen before makes the file loop throw, once the entry is read. */
  lemma ReadFilesDuplicate(data: seq<byte>, pos: nat, count: nat, decode: seq<byte> -> string, seen: seq<(string, string)>,
                           b: seq<byte>, next: nat, c: seq<byte>, after: nat)
    requires pos <= |data| && count > 0
    requires StringAt(data, pos) == Ok((b, next)) && StringAt(data, next) == Ok((c, after))
    requires decode(b) in Paths(seen)
    ensures ReadFiles(data, pos, count, decode, seen) == Err(DuplicateFile(decode(b)))
  {
  }

  /** Written file entries whose first path was seen before: the file loop throws for it. */
  lemma FirstFileRepeated(data: seq<byte>, pos: nat, files: seq<(string, string)>, utf8: string -> Utf8,
                          decode: seq<byte> -> string, seen: seq<(string, string)>)
    requires forall s :: decode(utf8(s)) == s
    requires files != [] && files[0].0 in Paths(seen)
    requires pos + |FilesBytes(files, utf8)| <= |data|
    requires data[pos..pos + |FilesBytes(files, utf8)|] == FilesBytes(files, utf8)
    ensures ReadFiles(data, pos, |files|, decode, seen) == Err(DuplicateFile(files[0].0))
  {
    var f := files[0];
    var b, c := utf8(f.0), utf8(f.1);
    var restBytes := FilesBytes(files[1..], utf8);
    assert FilesBytes(files, utf8) == StringBytes(b) + StringBytes(c) + restBytes;
    FileEntryAt(data, pos, b, c, restBytes, pos + 4 + |b|, pos + 8 + |b| + |c|, pos + 8 + |b| + |c| + |restBytes|);
    assert decode(b) == f.0;
    ReadFilesDuplicate(data, pos, |files|, decode, seen, b, pos + 4 + |b|, c, pos + 8 + |b| + |c|);
  }

  /** Written file entries whose `j`-th path repeats one before it (read now or earlier): the file loop
      throws the duplicate-entry exception for that path. */
  lemma {:induction false} RepeatedFileRejected(data: seq<byte>, pos: nat, files: seq<(string, string)>, utf8: string -> Utf8,
                                                decode: seq<byte> -> string, seen: seq<(string, string)>, j: nat)
    requires forall s :: decode(utf8(s)) == s
    requires j < |files| && Distinct(Paths(files)[..j]) && (forall i :: 0 <= i < j ==> Paths(files)[i] !in Paths(seen))
    requires Paths(files)[j] in Paths(seen) || Paths(files)[j] in Paths(files)[..j]
    requires pos + |FilesBytes(files, utf8)| <= |data|
    requires data[pos..pos + |FilesBytes(files, utf8)|] == FilesBytes(files, utf8)
    ensures ReadFiles(data, pos, |files|, decode, seen) == Err(DuplicateFile(files[j].0))
    decreases j
  {
    if j == 0 {
      FirstFileRepeated(data, pos, files, utf8, decode, seen);
    } else {
      var rest, seen1 := files[1..], seen + [files[0]];
      var after := FileEntryLayout(data, pos, files, utf8);
      FileEntryStep(data, pos, files, utf8, decode, seen, after);
      RestOfRepeat(Paths(files), Paths(seen), j);
      assert Paths(rest) == Paths(files)[1..];
      assert Paths(seen1) == Paths(seen) + [files[0].0];
      RepeatedFileRejected(data, after, rest, utf8, decode, seen1, j - 1);
    }
  }

  /** The reading phase throws what the file loop throws, once the directories are read. */
  lemma FilesFailParse(data: seq<byte>, e: Entries, decode: seq<byte> -> string, pos: nat, err: Exception)
    requires |data| >= 12 && FromLittleEndianSigned(data[..4]) == Magic
    requires FromLittleEndian32(data[4..8]) == |e.directories| && FromLittleEndian32(data[8..12]) == |e.files|
    requires ReadDirectories(data, 12, |e.directories|, decode, []) == Ok((e.directories, pos))
    requires pos <= |data| && ReadFiles(data, pos, |e.files|, decode, []) == Err(err)
    ensures ParseSave(data, decode) == Err(err)
  {
  }

  /** A save listing a file path twice does not load: reading it throws the duplicate-entry exception for
      the first repeat (its directories being distinct, as `Save` writes them). */
  lemma SaveWithRepeatedFileFails(e: Entries, utf8: string -> Utf8, decode: seq<byte> -> string)
    requires |e.directories| < Two32 / 2 && |e.files| < Two32 / 2
    requires forall s :: decode(utf8(s)) == s
    requires Distinct(e.directories) && !Distinct(Paths(e.files))
    ensures ParseSave(SaveBytes(e, utf8), decode) == Err(DuplicateFile(e.files[FirstRepeat(Paths(e.files))].0))
  {
    var data := SaveBytes(e, utf8);
    var pos := 12 + |DirectoriesBytes(e.directories, utf8)|;
    var j := FirstRepeat(Paths(e.files));
    SaveLayout(e, utf8);
    var _ := ReadAllDirectories(data, 12, e.directories, utf8, decode);
    assert Paths([]) == [];
    RepeatedFileRejected(data, pos, e.files, utf8, decode, [], j);
    FilesFailParse(data, e, decode, pos, DuplicateFile(e.files[j].0));
  }
}
