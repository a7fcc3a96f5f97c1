/**
 * The client side of the file-system protocol: each operation checks its arguments, composes the request
 * string `operation|path[|data]`, runs it on the file-system programmable block and reads the status name
 * the block leaves in its custom data.
 */
module FileSystemClients {
  import opened Wrappers
  import opened Errors
  import opened Text
  import opened Escapes

  /** `EFileSystemStatusCode`. */
  datatype StatusCode =
    | MissingArguments | InvalidArguments | IsFileMissing | IsDirectoryMissing | IsFile | IsNotFile
    | IsDirectory | IsNotDirectory | IsPath | IsNotPath | ChangedDirectory | FailedChangingDirectory
    | CreatedDirectory | FailedCreatingDirectory | CreatedFile | FailedCreatingFile | WrittenFileContents
    | FailedWritingFileContents | AppendedFileContents | FailedAppendingFileContents | DeletedPath
    | FailedDeletingPath | SavedState | ShownHelpTopic | CustomData | UnknownError
  {
    /** The member's name, which is what the server writes into its custom data. */
    function Name(): string {
      match this
      case MissingArguments => "MissingArguments"
      case InvalidArguments => "InvalidArguments"
      case IsFileMissing => "IsFileMissing"
      case IsDirectoryMissing => "IsDirectoryMissing"
      case IsFile => "IsFile"
      case IsNotFile => "IsNotFile"
      case IsDirectory => "IsDirectory"
      case IsNotDirectory => "IsNotDirectory"
      case IsPath => "IsPath"
      case IsNotPath => "IsNotPath"
      case ChangedDirectory => "ChangedDirectory"
      case FailedChangingDirectory => "FailedChangingDirectory"
      case CreatedDirectory => "CreatedDirectory"
      case FailedCreatingDirectory => "FailedCreatingDirectory"
      case CreatedFile => "CreatedFile"
      case FailedCreatingFile => "FailedCreatingFile"
      case WrittenFileContents => "WrittenFileContents"
      case FailedWritingFileContents => "FailedWritingFileContents"
      case AppendedFileContents => "AppendedFileContents"
      case FailedAppendingFileContents => "FailedAppendingFileContents"
      case DeletedPath => "DeletedPath"
      case FailedDeletingPath => "FailedDeletingPath"
      case SavedState => "SavedState"
      case ShownHelpTopic => "ShownHelpTopic"
      case CustomData => "CustomData"
      case UnknownError => "UnknownError"
    }
  }

  /** The statuses whose names have this length and end in this character; only three pairs of
      names share both. */
  function Candidates(length: nat, last: char): seq<StatusCode> {
    if length == 16 && last == 's' then [MissingArguments, InvalidArguments]
    else if length == 13 && last == 'g' then [IsFileMissing]
    else if length == 18 && last == 'g' then [IsDirectoryMissing]
    else if length == 6 && last == 'e' then [IsFile]
    else if length == 9 && last == 'e' then [IsNotFile]
    else if length == 11 && last == 'y' then [IsDirectory]
    else if length == 14 && last == 'y' then [IsNotDirectory]
    else if length == 6 && last == 'h' then [IsPath]
    else if length == 9 && last == 'h' then [IsNotPath]
    else if length == 16 && last == 'y' then [ChangedDirectory, CreatedDirectory]
    else if length == 23 && last == 'y' then [FailedChangingDirectory, FailedCreatingDirectory]
    else if length == 11 && last == 'e' then [CreatedFile]
    else if length == 18 && last == 'e' then [FailedCreatingFile]
    else if length == 19 && last == 's' then [WrittenFileContents]
    else if length == 25 && last == 's' then [FailedWritingFileContents]
    else if length == 20 && last == 's' then [AppendedFileContents]
    else if length == 27 && last == 's' then [FailedAppendingFileContents]
    else if length == 11 && last == 'h' then [DeletedPath]
    else if length == 18 && last == 'h' then [FailedDeletingPath]
    else if length == 10 && last == 'e' then [SavedState]
    else if length == 14 && last == 'c' then [ShownHelpTopic]
    else if length == 10 && last == 'a' then [CustomData]
    else if length == 12 && last == 'r' then [UnknownError]
    else []
  }

  /** The first of `candidates` named `s`. */
  function FirstNamed(s: string, candidates: seq<StatusCode>): (r: Option<StatusCode>)
    ensures r.Some? ==> r.value.Name() == s && r.value in candidates
    ensures r.None? ==> forall c :: c in candidates ==> c.Name() != s
  {
    if candidates == [] then None
    else if candidates[0].Name() == s then Some(candidates[0])
    else FirstNamed(s, candidates[1..])
  }

  /** `Enum.TryParse` on a member name: the status of exactly that name, if there is one. */
  function ParseStatus(s: string): (r: Option<StatusCode>)
    ensures r.Some? ==> r.value.Name() == s
  {
    if s == [] then None else FirstNamed(s, Candidates(|s|, s[|s| - 1]))
  }

  /** The round trip of `ParseStatusName`, split over groups of statuses to keep each proof small. */
  lemma ParseStatusNameGroup0(c: StatusCode)
    requires c.IsFile? || c.IsPath? || c.IsNotFile? || c.IsNotPath? || c.SavedState? ||
      c.CustomData?
    ensures ParseStatus(c.Name()) == Some(c)
  {
  }

  lemma ParseStatusNameGroup1(c: StatusCode)
    requires c.IsDirectory? || c.CreatedFile? || c.DeletedPath? || c.UnknownError? ||
      c.IsFileMissing?
    ensures ParseStatus(c.Name()) == Some(c)
  {
  }

  lemma ParseStatusNameGroup2(c: StatusCode)
    requires c.IsNotDirectory? || c.ShownHelpTopic? || c.MissingArguments? || c.InvalidArguments? ||
      c.ChangedDirectory? || c.CreatedDirectory?
    ensures ParseStatus(c.Name()) == Some(c)
  {
    var s := c.Name();
    if c == InvalidArguments {
      assert MissingArguments.Name()[0] != s[0];
      assert FirstNamed(s, [MissingArguments, InvalidArguments]) == FirstNamed(s, [InvalidArguments]);
    } else if c == CreatedDirectory {
      assert ChangedDirectory.Name()[1] != s[1];
      assert FirstNamed(s, [ChangedDirectory, CreatedDirectory]) == FirstNamed(s, [CreatedDirectory]);
    }
  }

  lemma ParseStatusNameGroup3(c: StatusCode)
    requires c.IsDirectoryMissing? || c.FailedCreatingFile? || c.FailedDeletingPath? ||
      c.WrittenFileContents? || c.AppendedFileContents?
    ensures ParseStatus(c.Name()) == Some(c)
  {
  }

  lemma ParseStatusNameGroup4(c: StatusCode)
    requires c.FailedChangingDirectory? || c.FailedCreatingDirectory? ||
      c.FailedWritingFileContents? || c.FailedAppendingFileContents?
    ensures ParseStatus(c.Name()) == Some(c)
  {
    var s := c.Name();
    if c == FailedCreatingDirectory {
      assert FailedChangingDirectory.Name()[7] != s[7];
      assert FirstNamed(s, [FailedChangingDirectory, FailedCreatingDirectory]) == FirstNamed(s, [FailedCreatingDirectory]);
    }
  }

  /** Parsing a status's name gives the status back. */
  lemma ParseStatusName(c: StatusCode)
    ensures ParseStatus(c.Name()) == Some(c)
  {
    match c
    case IsFile | IsPath | IsNotFile | IsNotPath | SavedState | CustomData
      => ParseStatusNameGroup0(c);
    case IsDirectory | CreatedFile | DeletedPath | UnknownError | IsFileMissing
      => ParseStatusNameGroup1(c);
    case IsNotDirectory | ShownHelpTopic | MissingArguments | InvalidArguments | ChangedDirectory | CreatedDirectory
      => ParseStatusNameGroup2(c);
    case IsDirectoryMissing | FailedCreatingFile | FailedDeletingPath | WrittenFileContents | AppendedFileContents
      => ParseStatusNameGroup3(c);
    case FailedChangingDirectory | FailedCreatingDirectory | FailedWritingFileContents | FailedAppendingFileContents
      => ParseStatusNameGroup4(c);
  }

  /** A block that runs a request returns its custom data; `None` when no working block named
      "filesystem" is found or it does not run. */
  type Block = string -> Option<string>

  /** `SendCommand`: an unknown error without a reply, otherwise the parsed status, `CustomData` when the
      reply is not a status name, together with the reply. */
  function SendCommand(argument: string, block: Block): (r: (StatusCode, string))
    ensures block(argument).None? ==> r == (UnknownError, "")
    ensures block(argument).Some? ==> r.1 == block(argument).value
    ensures block(argument).Some? ==> (r.0 == CustomData <==> ParseStatus(r.1).None? || r.1 == "CustomData")
    ensures block(argument).Some? && r.0 != CustomData ==> r.0.Name() == r.1
  {
    match block(argument)
    case None => (UnknownError, "")
    case Some(reply) =>
      ParseStatusName(CustomData);
      (ParseStatus(reply).GetOr(CustomData), reply)
  }

  /** A status other than `CustomData` and `UnknownError` (which also stands for a missing block) is
      reported exactly when the reply is its name. */
  lemma SendCommandReports(argument: string, block: Block, c: StatusCode)
    requires c != CustomData && c != UnknownError
    ensures SendCommand(argument, block).0 == c <==> block(argument) == Some(c.Name())
  {
    ParseStatusName(c);
  }

  /** The escape table keys, each a single character: seven control characters, the backslash and the
      two quotes. */
  const ControlCharacters: seq<char> := [Alert, Backspace, FormFeed, '\n', '\r', '\t', VerticalTab, '\\', '\'', '"']

  /** The replacement of each key. */
  const EscapedForms: seq<string> := ["\\a", "\\b", "\\f", "\\n", "\\r", "\\t", "\\v", "\\", "\\'", "\\\""]

  /** The text after the first `n` replacements of the table. */
  function EscapePrefix(text: string, n: nat): string
    requires n <= |ControlCharacters|
  {
    if n == 0 then text else Replace(EscapePrefix(text, n - 1), [ControlCharacters[n - 1]], EscapedForms[n - 1])
  }

  /** The escaped text: the whole table applied in order. */
  function Escaped(text: string): string {
    EscapePrefix(text, |ControlCharacters|)
  }

  /** The seven control characters the escape spells out. */
  predicate IsControl(c: char) {
    c == Alert || c == Backspace || c == FormFeed || c == '\n' || c == '\r' || c == '\t' || c == VerticalTab
  }

  /** The first seven keys are the control characters, and no replacement holds one. */
  lemma TableShape()
    ensures forall j :: 0 <= j < 7 ==> IsControl(ControlCharacters[j])
    ensures forall m, i :: 0 <= m < |EscapedForms| && 0 <= i < |EscapedForms[m]| ==> !IsControl(EscapedForms[m][i])
    ensures |EscapedForms| == |ControlCharacters|
  {
  }

  /** After `n` steps none of the control characters among the first `n` keys is left. */
  lemma {:induction false} EscapePrefixNoControl(text: string, n: nat)
    requires n <= |ControlCharacters|
    ensures forall j :: 0 <= j < n && j < 7 ==> ControlCharacters[j] !in EscapePrefix(text, n)
  {
    if n > 0 {
      EscapePrefixNoControl(text, n - 1);
      TableShape();
      var before := EscapePrefix(text, n - 1);
      forall j | 0 <= j < n && j < 7
        ensures ControlCharacters[j] !in EscapePrefix(text, n)
      {
        assert IsControl(ControlCharacters[j]);
        assert ControlCharacters[j] !in EscapedForms[n - 1];
        if j < n - 1 {
          ReplaceKeepsOut(before, [ControlCharacters[n - 1]], EscapedForms[n - 1], ControlCharacters[j]);
        } else {
          ReplaceCharOut(before, ControlCharacters[n - 1], EscapedForms[n - 1]);
        }
      }
    }
  }

  /** Escaped text holds none of the seven control characters. */
  lemma EscapedHasNoControl(text: string)
    ensures forall i :: 0 <= i < |Escaped(text)| ==> !IsControl(Escaped(text)[i])
  {
    EscapePrefixNoControl(text, |ControlCharacters|);
    TableShape();
    var s := Escaped(text);
    forall i | 0 <= i < |s|
      ensures !IsControl(s[i])
    {
      assert ControlCharacters[0] == Alert && ControlCharacters[1] == Backspace && ControlCharacters[2] == FormFeed;
      assert ControlCharacters[3] == '\n' && ControlCharacters[4] == '\r' && ControlCharacters[5] == '\t';
      assert ControlCharacters[6] == VerticalTab;
      assert s[i] in s;
    }
  }

  /** Text without any key passes every step unchanged. */
  lemma {:induction false} EscapePrefixPlain(text: string, n: nat)
    requires n <= |ControlCharacters|
    requires forall i :: 0 <= i < |text| ==> text[i] !in ControlCharacters
    ensures EscapePrefix(text, n) == text
  {
    if n > 0 {
      EscapePrefixPlain(text, n - 1);
      ContainsChar(text, ControlCharacters[n - 1]);
    }
  }

  /** Text without any key is sent as it is. */
  lemma EscapedPlain(text: string)
    requires forall i :: 0 <= i < |text| ==> text[i] !in ControlCharacters
    ensures Escaped(text) == text
  {
    EscapePrefixPlain(text, |ControlCharacters|);
  }

  /** Such text also comes out of the file-system program's unescaping as it went in. */
  lemma PlainTextSurvives(text: string)
    requires forall i :: 0 <= i < |text| ==> text[i] !in ControlCharacters
    ensures Unescape(Escaped(text)) == text
  {
    EscapedPlain(text);
    assert '\\' == ControlCharacters[7];
    UnescapePlain(text);
  }

  /** `EscapeText`: the table's replacements, one after the other. */
  method EscapeText(text: string) returns (ret: string)
    ensures ret == Escaped(text)
  {
    ret := text;
    var i := 0;
    while i < |ControlCharacters|
      invariant 0 <= i <= |ControlCharacters|
      invariant ret == EscapePrefix(text, i)
    {
      ret := Replace(ret, [ControlCharacters[i]], EscapedForms[i]);
      i := i + 1;
    }
  }

  /** The characters that make a path unacceptable: the table's keys. */
  predicate HasControlCharacter(text: string) {
    exists i :: 0 <= i < |text| && text[i] in ControlCharacters
  }

  /** `ContainsControlCharacters`: looks for each key and stops at the first one found. */
  method ContainsControlCharacters(text: string) returns (ret: bool)
    ensures ret <==> HasControlCharacter(text)
  {
    ret := false;
    var k := 0;
    while k < |ControlCharacters|
      invariant 0 <= k <= |ControlCharacters|
      invariant !ret
      invariant forall j :: 0 <= j < k ==> ControlCharacters[j] !in text
    {
      ContainsChar(text, ControlCharacters[k]);
      if Contains(text, [ControlCharacters[k]]) {
        ret := true;
        break;
      }
      k := k + 1;
    }
  }

  /** The message of the `ArgumentException` for a path with a control character. */
  const ControlCharactersMessage := "Control characters are not allowed"

  /** The checks every path operation makes before anything is sent. */
  function CheckPath(path: NullableString): (r: Option<Exception>)
    ensures r.None? <==> path.Some? && !HasControlCharacter(path.value)
  {
    if path.None? then Some(ArgumentNullException("path"))
    else if HasControlCharacter(path.value) then Some(ArgumentException(ControlCharactersMessage))
    else None
  }

  /** The operations whose answer is whether the block reports one particular status. */
  datatype PathOperation =
    | ChangeDirectory | CreateDirectory | CreateFile | Delete | IsDirectoryQuery | IsFileQuery | IsPathQuery
  {
    /** The request keyword. */
    function Keyword(): string {
      match this
      case ChangeDirectory => "changedirectory"
      case CreateDirectory => "createdirectory"
      case CreateFile => "createfile"
      case Delete => "delete"
      case IsDirectoryQuery => "isdirectory"
      case IsFileQuery => "isfile"
      case IsPathQuery => "ispath"
    }

    /** The status that means success. */
    function Success(): StatusCode {
      match this
      case ChangeDirectory => ChangedDirectory
      case CreateDirectory => CreatedDirectory
      case CreateFile => CreatedFile
      case Delete => DeletedPath
      case IsDirectoryQuery => IsDirectory
      case IsFileQuery => IsFile
      case IsPathQuery => IsPath
    }
  }

  /** `ChangeDirectory`, `CreateDirectory`, `CreateFile`, `Delete`, `IsDirectory`, `IsFile`, `IsPath`:
      a refused path throws and sends nothing; otherwise the answer is whether `keyword|path` was
      answered with the success status. */
  function PathRequest(op: PathOperation, path: NullableString, block: Block): (r: Result<bool, Exception>)
    ensures CheckPath(path).Some? ==> r == Err(CheckPath(path).value)
    ensures CheckPath(path).None? ==>
      r.Ok? && (r.value <==> block(op.Keyword() + "|" + path.value) == Some(op.Success().Name()))
  {
    if CheckPath(path).Some? then Err(CheckPath(path).value)
    else
      var request := op.Keyword() + "|" + path.value;
      SendCommandReports(request, block, op.Success());
      Ok(SendCommand(request, block).0 == op.Success())
  }

  /** The two operations that send data. */
  datatype DataOperation = AppendFile | WriteFile {
    function Keyword(): string {
      match this
      case AppendFile => "append"
      case WriteFile => "write"
    }

    function Success(): StatusCode {
      match this
      case AppendFile => AppendedFileContents
      case WriteFile => WrittenFileContents
    }
  }

  /** `AppendFile` and `WriteFile`: the path checks, then missing data throws, then `keyword|path|data`
      with the data escaped is sent. */
  function DataRequest(op: DataOperation, path: NullableString, data: NullableString, block: Block): (r: Result<bool, Exception>)
    ensures CheckPath(path).Some? ==> r == Err(CheckPath(path).value)
    ensures CheckPath(path).None? && data.None? ==> r == Err(ArgumentNullException("data"))
    ensures CheckPath(path).None? && data.Some? ==>
      r.Ok? && (r.value <==> block(op.Keyword() + "|" + path.value + "|" + Escaped(data.value)) == Some(op.Success().Name()))
  {
    if CheckPath(path).Some? then Err(CheckPath(path).value)
    else if data.None? then Err(ArgumentNullException("data"))
    else
      var request := op.Keyword() + "|" + path.value + "|" + Escaped(data.value);
      SendCommandReports(request, block, op.Success());
      Ok(SendCommand(request, block).0 == op.Success())
  }

  /** A request that fails its checks does not depend on the block at all. */
  lemma RefusedRequestsSendNothing(op: PathOperation, data: DataOperation, path: NullableString, content: NullableString,
                                   one: Block, other: Block)
    requires CheckPath(path).Some?
    ensures PathRequest(op, path, one) == PathRequest(op, path, other)
    ensures DataRequest(data, path, content, one) == DataRequest(data, path, content, other)
  {
  }

  /** The custom data of the reply when the block answered with data rather than a status. */
  function DataReply(request: string, block: Block): (r: string)
    ensures r != "" ==> block(request).Some? && r == block(request).value
  {
    var (status, result) := SendCommand(request, block);
    if status == CustomData then result else ""
  }

  /** The `CurrentDirectory` getter. */
  function CurrentDirectory(block: Block): string {
    DataReply("currentdirectory", block)
  }

  /** `ReadFile`: the path checks, then the reply to `read|path` when it is data. */
  function ReadFile(path: NullableString, block: Block): (r: Result<string, Exception>)
    ensures CheckPath(path).Some? ==> r == Err(CheckPath(path).value)
    ensures CheckPath(path).None? ==> r == Ok(DataReply("read|" + path.value, block))
  {
    if CheckPath(path).Some? then Err(CheckPath(path).value) else Ok(DataReply("read|" + path.value, block))
  }

  /** A data reply is never mistaken for a status: a reply that names a status other than `CustomData`
      gives the empty string. */
  lemma DataReplyIsNotStatus(request: string, block: Block, c: StatusCode)
    requires c != CustomData && block(request) == Some(c.Name())
    ensures DataReply(request, block) == ""
  {
    ParseStatusName(c);
  }

  /** The entries of a listing: the reply split on line feeds, each entry trimmed in place. */
  method ListEntries(reply: string) returns (ret: seq<string>)
    ensures |ret| == |Split(reply, '\n')|
    ensures forall i :: 0 <= i < |ret| ==> ret[i] == Trim(Split(reply, '\n')[i])
  {
    ret := Split(reply, '\n');
    for i := 0 to |ret|
      invariant |ret| == |Split(reply, '\n')|
      invariant forall j :: 0 <= j < i ==> ret[j] == Trim(Split(reply, '\n')[j])
      invariant forall j :: i <= j < |ret| ==> ret[j] == Split(reply, '\n')[j]
    {
      ret := ret[i := Trim(ret[i])];
    }
  }

  /** `List()` and `List(path)`: the trimmed entries of the reply when it is data, none otherwise. */
  method List(path: Option<NullableString>, block: Block) returns (r: Result<seq<string>, Exception>)
    ensures path.Some? && CheckPath(path.value).Some? ==> r == Err(CheckPath(path.value).value)
    ensures r.Ok? ==>
      var request := if path.None? then "list" else "list|" + path.value.value;
      var (status, reply) := SendCommand(request, block);
      if status == CustomData then |r.value| == |Split(reply, '\n')|
        && forall i :: 0 <= i < |r.value| ==> r.value[i] == Trim(Split(reply, '\n')[i])
      else r.value == []
    ensures path.None? || CheckPath(path.value).None? ==> r.Ok?
  {
    var request := "list";
    if path.Some? {
      var check := CheckPath(path.value);
      if check.Some? {
        return Err(check.value);
      }
      request := "list|" + path.value.value;
    }
    var (status, reply) := SendCommand(request, block);
    var ret: seq<string> := [];
    if status == CustomData {
      ret := ListEntries(reply);
    }
    r := Ok(ret);
  }
}
