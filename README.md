# SpaceEngineersPrograms and JSONParser in Dafny

A model of the self-contained logic of a collection of Space Engineers in-game scripts (C# programmable-block
programs) and of the small JSON-like parser they ship with, with proofs of what that logic promises.

- **JSON parser and element tree** (`json_element.dfy`, `json_parser.dfy`): the three element kinds
  (primitive, list, object) as the value `Element`, with classes `JsonPrimitive`, `JsonList` and
  `JsonObject` holding the fields the C# classes update in place; compact and pretty rendering; and the
  resumable parser, whose coroutine is an explicit scanner state, a pure step `Scan`, the loop that one
  `MoveNext` runs, and the class `Json` that keeps the state between calls. The quirks of the code are
  kept: a top-level `[` fails on an empty stack, `]` after a closed container adds an empty primitive,
  `ParsingComplete` turns true one call late, `Progress` never reaches 100 and divides by zero on empty
  input, and adding a duplicate key to an object throws.
- **Storage codecs** (`storage_serializer.dfy`, `file_system_server.dfy`): `StorageDataSerializer`, a
  growable byte buffer with a clamped read position, little-endian integers, length-prefixed strings and
  a low-nibble-first hex string with a cache; the file-system server's `StorageReader`, its per-file
  permission predicates and the two-bit flag byte.
- **Commands** (`commands.dfy`): `ArgumentString`, `Command` with its aliases and help text, and the
  `Commands` registry with `Add`, `AddAliases`, `Remove`, `Parse` and `GetHelpTopic`.
- **Logger program** (`logger_program.dfy`): one text buffer per application ID, driven by the `append`,
  `write`, `clear`, `read` and `applications` commands.
- **EngineersOS** (`engineers_os.dfy`): the percent escaping of names, the permission-gated directory tree
  with create and delete, the shell's path resolution, current directory and command execution, and the
  console's line buffering. The shell's operations follow the code as written: names are escaped by the
  25-step `EscapePath`, `Delete` escapes a key a second time, and paths are resolved without skipping empty
  parts. The corrected escape and resolution are modelled beside them (see Findings).
- **File-system program** (`file_system_tree.dfy`, `file_system_save.dfy`, `file_system_program.dfy`): the
  in-memory tree of directories and files with `/`-path traversal, create, recursive delete and content
  operations; the save format; the loader that rebuilds the tree and the saver that writes it; and the
  program's state as a class.
- **File-system client** (`file_system_client.dfy`): the escaping and argument guards of `Core/FileSystem.cs`,
  the request strings it sends, and the status mapping of `SendCommand`.
- **Sprites previewer** (`sprites_previewer.dfy`): the wrap-around cursor over a copied list of names.
- **Shared pieces**: .NET string operations (`text.dfy`), sequence helpers (`seqs.dfy`), ordinal sorting
  (`sorting.dfy`), fixed-width integers (`ints.dfy`), the backslash escape table (`escapes.dfy`), the
  exceptions (`errors.dfy`) and `Option`/`Result` (`wrappers.dfy`).

A C# `null` is `None` and a thrown exception is `Err(e)` with the exception as a value. Objects that the
code links by reference (the file-system trees) are kept in a map from ids to nodes. The game block a
client talks to, the UTF-8 codec and the enumeration order of a dictionary or hash set are parameters.

## Model

| member | source | states |
|---|---|---|
| JsonElements.Element.ValueType | JSONParser/JsonElement.cs:11-19 | each kind reports its own value type, and the three answers tell the kinds apart in both directions |
| JsonElements.IsPrimitiveExactly | JSONParser/JsonElement.cs:14-18 | `IsPrimitive` holds for a primitive and for nothing else |
| JsonElements.RenderItems | JSONParser/JsonList.cs:62-68 | one piece per list item, in order, each the item's own rendering indented as the loop indents it |
| JsonElements.RenderMembers | JSONParser/JsonObject.cs:64-70 | one piece per dictionary entry, in enumeration order, each the child's rendering indented |
| JsonElements.TerminatedJoin | JSONParser/JsonList.cs:62-69 | appending "piece," for every child gives the comma-joined pieces plus one trailing comma, which the `Substring` removes |
| JsonElements.ChildPiece | JSONParser/JsonList.cs:64-67 | a child's piece is its rendering with every inner line break followed by two spaces, on a new indented line when pretty |
| JsonElements.RenderContainer | JSONParser/JsonList.cs:56-73 | the loop's text is the head, the opening bracket, the comma-joined children and the closing bracket (on its own line when pretty); with no child the `Substring` drops the opening bracket instead of a comma |
| JsonElements.RenderMembersAsItems | JSONParser/JsonObject.cs:58-75 | an object renders its children exactly as a list would render the same children in enumeration order |
| JsonElements.Lookup | JSONParser/JsonObject.cs:19-25 | a child is found under a name exactly when some entry carries that name, and the child found is that entry's child |
| JsonElements.ObjectAdd | JSONParser/JsonObject.cs:53-56 | `Dictionary.Add` under the child's own key: a null key throws `ArgumentNullException`, a key already present throws `ArgumentException`, otherwise the entry is appended |
| JsonElements.ObjectAddLookup | JSONParser/JsonObject.cs:53-56 | after a successful add the keys stay distinct, the child is found under its key, and every other key finds what it found before |
| JsonElements.LookupAppend | JSONParser/JsonObject.cs:19-25 | looking a name up after appending a new entry finds the new child for its name and the old answer for every other name |
| JsonElements.AddChild | JSONParser/JSON.cs:75 | adding to a list always appends; adding to an object fails exactly when the dictionary add fails, and only with the null-key or duplicate-key exception |
| JsonElements.ReplaceLastChild | JSONParser/JSON.cs:106 | writing a popped container back into its parent keeps the parent's kind, key and number of children |
| JsonElements.JsonPrimitive.constructor | JSONParser/JsonPrimitive.cs:19-23 | the new primitive holds the given key and value |
| JsonElements.JsonPrimitive.SetKey | JSONParser/JsonPrimitive.cs:25-28 | the key becomes the given one and the value is untouched |
| JsonElements.JsonPrimitive.SetValue | JSONParser/JsonPrimitive.cs:30-33 | the value becomes the given one and the key is untouched |
| JsonElements.JsonPrimitive.GetValue | JSONParser/JsonPrimitive.cs:36-105 | a string request returns the text itself; each of the eleven other supported types returns the framework parser's verdict on the text; any other type throws `ArgumentException` naming the type |
| JsonElements.JsonPrimitive.TryGetValue | JSONParser/JsonPrimitive.cs:107-119 | true exactly when `GetValue` succeeds, with its result; false with the type's default when it throws |
| JsonElements.JsonPrimitive.ToString | JSONParser/JsonPrimitive.cs:121-131 | a null value prints nothing; otherwise the value verbatim, preceded by `key: ` (pretty) or `key:` (compact) exactly when the key is neither null nor empty |
| JsonElements.JsonList.constructor | JSONParser/JsonList.cs:44-48 | a new list holds the given key and no items |
| JsonElements.JsonList.SetKey | JSONParser/JsonElement.cs:21-24 | the key becomes the given one and the items are untouched |
| JsonElements.JsonList.Get | JSONParser/JsonList.cs:20-26 | the indexer returns the item at an index inside the list and throws `ArgumentOutOfRangeException` exactly for an index outside it |
| JsonElements.JsonList.Add | JSONParser/JsonList.cs:50-53 | the item is appended: the count grows by one and the last item is the added one |
| JsonElements.JsonList.Clear | JSONParser/JsonList.cs:75-78 | the list becomes empty and keeps its key |
| JsonElements.JsonList.Remove | JSONParser/JsonList.cs:90-93 | true exactly when an equal item was present, and only the first such item is removed |
| JsonElements.JsonList.Count | JSONParser/JsonList.cs:28-34 | the number of items the list holds |
| JsonElements.JsonList.IsReadOnly | JSONParser/JsonList.cs:36-42 | a list is never read-only |
| JsonElements.JsonList.Contains | JSONParser/JsonList.cs:80-83 | true exactly when some item equals the given element |
| JsonElements.JsonList.ToString | JSONParser/JsonList.cs:56-73 | the loop produces the list's rendering: its key prefix unless the key is `""` (a null key gives a bare `: `), then the bracketed children |
| JsonElements.JsonObject.constructor | JSONParser/JsonObject.cs:47-51 | a new object holds the given key and no entries |
| JsonElements.JsonObject.SetKey | JSONParser/JsonElement.cs:21-24 | the key becomes the given one and the entries are untouched |
| JsonElements.JsonObject.Keys | JSONParser/JsonObject.cs:27-33 | the key of every entry, in enumeration order, one per entry |
| JsonElements.JsonObject.ContainsKey | JSONParser/JsonObject.cs:35-38 | true exactly for the keys of added children; a null key throws |
| JsonElements.JsonObject.Get | JSONParser/JsonObject.cs:19-25 | the indexer returns the child added under the key; a null key or a key never added throws |
| JsonElements.JsonObject.GetValueOrDefault | JSONParser/JsonObject.cs:40-45 | the child when the key is present and null when it is not, agreeing with the indexer |
| JsonElements.JsonObject.Add | JSONParser/JsonObject.cs:53-56 | a null or duplicate key throws and changes nothing; otherwise the child is stored under its key, the keys grow by that key and the indexer finds the child |
| JsonElements.JsonObject.ToString | JSONParser/JsonObject.cs:58-75 | the loop produces the object's rendering: its key prefix only for a non-null, non-empty key, then the braced children |
| JsonParser.AddToTop | JSONParser/JSON.cs:75 | `JsonStack.Peek().Add`: an empty stack throws `InvalidOperationException`; otherwise the innermost container gains the child, or the dictionary add's exception surfaces |
| JsonParser.PopStack | JSONParser/JSON.cs:106 | `JsonStack.Pop`: the innermost container is returned and leaves the stack, and its finished contents become its parent's last child |
| JsonParser.SkipComma | JSONParser/JSON.cs:104-105 | the cursor moves onto the next character exactly when a comma directly follows the closing bracket |
| JsonParser.ValueCase | JSONParser/JSON.cs:71-109 | a value-mode delimiter moves the cursor onto it or the comma after it, keeps a well-formed stack, and fails only with the empty-stack or dictionary-add exceptions |
| JsonParser.KeyCase | JSONParser/JSON.cs:129-147 | a key-mode delimiter moves the cursor onto it or the comma after it and keeps a well-formed stack |
| JsonParser.Scan | JSONParser/JSON.cs:60-150 | one loop iteration keeps the scanner state consistent and strictly advances the cursor |
| JsonParser.ScanFindsNextDelimiter | JSONParser/JSON.cs:62 | the delimiter acted on is the first character of the expected set after the cursor |
| JsonParser.ScanEof | JSONParser/JSON.cs:62-64 | the iteration throws `UnexpectedCharacterException` with "EOF" and the cursor exactly when no expected delimiter follows the cursor |
| JsonParser.ValueDelimiterAddsPrimitive | JSONParser/JSON.cs:88-108 | in value mode `,`, `}` and `]` add a primitive keyed by the pending key whose value is the trimmed text since the cursor; `,` keeps the container open, the brackets close it |
| JsonParser.ModeAfterValueStep | JSONParser/JSON.cs:111-122 | after a value-mode step the scanner expects a value with a null key when no container is open or the innermost is a list, and a key inside an object |
| JsonParser.KeyModeStep | JSONParser/JSON.cs:129-147 | `:` stores the trimmed text as pending key and switches to value mode; `}` closes the innermost container, consuming a following comma, and throws on an empty stack |
| JsonParser.OpeningOnEmptyStack | JSONParser/JSON.cs:73-87 | `{` with no open container starts a new root that no parent receives; `[` with none open throws, because it always peeks |
| JsonParser.PausingIsTransparent | JSONParser/JSON.cs:150-159 | pausing loses nothing: resuming from wherever a call stopped ends exactly where one uninterrupted run ends |
| JsonParser.RunAdvances | JSONParser/JSON.cs:150-156 | each call of the pause predicate follows one processed delimiter, and a call that pauses has moved the cursor forward |
| JsonParser.RunStopsAtFirstPause | JSONParser/JSON.cs:152-155 | a call stops at the first true answer of the pause predicate and at no earlier one |
| JsonParser.ProgressOf | JSONParser/JSON.cs:20-26 | `Progress` divides by the text's length, so it throws `DivideByZeroException` exactly for an empty text |
| JsonParser.ProgressBounds | JSONParser/JSON.cs:20-26 | while the cursor stays inside the text and `100 * length` fits an `int`, the progress lies in [0, 100) and never decreases as the cursor advances |
| JsonParser.ProgressValue | JSONParser/JSON.cs:24 | below the overflow bound the progress is the plain quotient `100 * max(0, cursor) / length` |
| JsonParser.Json.Progress | JSONParser/JSON.cs:20-26 | the `Progress` property of a parser: `ProgressOf` on its cursor and its text's length, whose lemmas state the division by zero on empty text and the bounds |
| JsonParser.ParseErrorMessage | JSONParser/JSON.cs:162-167 | every parse exception message starts with "PARSE ERROR" |
| JsonParser.Json.constructor | JSONParser/JSON.cs:29-35 | the constructor only stores the text and the pause predicate; nothing is parsed and no result exists yet |
| JsonParser.Json.RunLoop | JSONParser/JSON.cs:60-159 | the coroutine body runs from the saved state to its next `yield` or exception, exactly as the reference run says, and sets `Result` to the last popped container at the end |
| JsonParser.Json.MoveNext | JSONParser/JSON.cs:40 | once the coroutine has ended `MoveNext` is false and changes nothing; before that it runs to the next `yield`, and an exception ends it |
| JsonParser.Json.ParsingComplete | JSONParser/JSON.cs:38-41 | false on every call that yields, including the one that consumes the end of the text and sets `Result`, and true on every call after that |
| StorageSerializer.HexValue | SpaceEngineersPrograms/Core/StorageDataSerializer.cs:94-110 | a hex digit of either case denotes a nibble below 16 |
| StorageSerializer.HexDigit | SpaceEngineersPrograms/Core/StorageDataSerializer.cs:112 | a nibble becomes an upper-case hex digit that denotes that nibble again |
| StorageSerializer.HexEncode | SpaceEngineersPrograms/Core/StorageDataSerializer.cs:27-43 | the storage string has two upper-case hex digits per byte, so it is a valid storage string |
| StorageSerializer.HexDecode | SpaceEngineersPrograms/Core/StorageDataSerializer.cs:61-64 | a valid storage string denotes half as many bytes as it has digits |
| StorageSerializer.DecodeEncode | SpaceEngineersPrograms/Core/StorageDataSerializer.cs:27-64 | bytes to storage string and back gives the same bytes |
| StorageSerializer.EncodeDecode | SpaceEngineersPrograms/Core/StorageDataSerializer.cs:27-64 | a valid storage string without lower-case digits is the encoding of the bytes it denotes |
| StorageSerializer.DecodeDigitRun | SpaceEngineersPrograms/Programs/UnitTestsProgram.cs:104-113 | "0123456789ABCDEF" denotes the bytes 0x10, 0x32, 0x54, 0x76, 0x98, 0xBA, 0xDC and 0xFE, low nibble first |
| StorageSerializer.LittleEndian16 | SpaceEngineersPrograms/Core/StorageDataSerializer.cs:206-210 | a 16-bit value is written as two bytes |
| StorageSerializer.LittleEndian32 | SpaceEngineersPrograms/Core/StorageDataSerializer.cs:214-218 | a 32-bit value is written as four bytes, the low half first |
| StorageSerializer.LittleEndian64 | SpaceEngineersPrograms/Core/StorageDataSerializer.cs:222-226 | a 64-bit value is written as eight bytes, the low half first |
| StorageSerializer.RoundTrip16 | SpaceEngineersPrograms/Core/StorageDataSerializer.cs:157-162 | reading two written bytes gives the written value back, and writing a read value gives the bytes back |
| StorageSerializer.RoundTrip32 | SpaceEngineersPrograms/Core/StorageDataSerializer.cs:166-171 | the same for 32 bits, composed from the 16-bit halves |
| StorageSerializer.RoundTrip64 | SpaceEngineersPrograms/Core/StorageDataSerializer.cs:175-180 | the same for 64 bits, composed from the 32-bit halves |
| StorageSerializer.SignedRoundTrip16 | SpaceEngineersPrograms/Core/StorageDataSerializer.cs:164 | a `short` written as its unsigned bits reads back as itself |
| StorageSerializer.SignedRoundTrip32 | SpaceEngineersPrograms/Core/StorageDataSerializer.cs:173 | an `int` written as its unsigned bits reads back as itself |
| StorageSerializer.SignedRoundTrip64 | SpaceEngineersPrograms/Core/StorageDataSerializer.cs:182 | a `long` written as its unsigned bits reads back as itself |
| StorageSerializer.ReadBytesCheck | SpaceEngineersPrograms/Core/StorageDataSerializer.cs:116-131 | the read goes ahead exactly when the length is neither negative nor more than the bytes left, and the result array exists and is large enough; each failed check throws its own exception, in the source's order |
| StorageSerializer.StorageDataSerializer.constructor | SpaceEngineersPrograms/Core/StorageDataSerializer.cs:45-48 | a new buffer is empty, at position 0, with no cached string |
| StorageSerializer.StorageDataSerializer.FromHex | SpaceEngineersPrograms/Core/StorageDataSerializer.cs:50-65 | the loop fills the buffer with the bytes the string denotes, and the string itself is kept as the cache |
| StorageSerializer.StorageDataSerializer.FromBytes | SpaceEngineersPrograms/Core/StorageDataSerializer.cs:67-70 | a buffer built from bytes holds exactly those bytes, with no cache |
| StorageSerializer.StorageDataSerializer.FromStorageString | SpaceEngineersPrograms/Core/StorageDataSerializer.cs:50-59 | a null string throws `ArgumentNullException`, an invalid one `ArgumentException`; a valid one gives a buffer holding the bytes it denotes |
| StorageSerializer.StorageDataSerializer.ValidateHexString | SpaceEngineersPrograms/Core/StorageDataSerializer.cs:72-92 | a null input throws; otherwise the loop answers true exactly for an even number of hex digits of either case |
| StorageSerializer.StorageDataSerializer.StorageString | SpaceEngineersPrograms/Core/StorageDataSerializer.cs:27-43 | the cached string when there is one; otherwise the loop writes the encoding of the data, which becomes the cache, so a coherent cache stays coherent |
| StorageSerializer.StorageDataSerializer.SetPosition | SpaceEngineersPrograms/Core/StorageDataSerializer.cs:21-24 | the position becomes the given value, clamped to the end of the data |
| StorageSerializer.StorageDataSerializer.ReadBytesInto | SpaceEngineersPrograms/Core/StorageDataSerializer.cs:114-137 | a failed check changes nothing; otherwise the loop copies the next bytes into the front of the result array, leaves the rest of it alone and moves the position past them |
| StorageSerializer.StorageDataSerializer.ReadBytes | SpaceEngineersPrograms/Core/StorageDataSerializer.cs:139-144 | the next `length` bytes, moving past them; a negative length fails allocating the array, and too few bytes throw without moving |
| StorageSerializer.StorageDataSerializer.ReadByte | SpaceEngineersPrograms/Core/StorageDataSerializer.cs:146-153 | the byte at the position, moving past it; at the end of the data it throws and stays |
| StorageSerializer.StorageDataSerializer.ReadSByte | SpaceEngineersPrograms/Core/StorageDataSerializer.cs:155 | the byte at the position read as a signed byte |
| StorageSerializer.StorageDataSerializer.ReadUInt16 | SpaceEngineersPrograms/Core/StorageDataSerializer.cs:157-162 | the next two bytes as a little-endian value; too few bytes throw and leave the position at the end of the data |
| StorageSerializer.StorageDataSerializer.ReadInt16 | SpaceEngineersPrograms/Core/StorageDataSerializer.cs:164 | the same bits read as a `short` |
| StorageSerializer.StorageDataSerializer.ReadUInt32 | SpaceEngineersPrograms/Core/StorageDataSerializer.cs:166-171 | the next four bytes as a little-endian value, or the end-of-data exception |
| StorageSerializer.StorageDataSerializer.ReadInt32 | SpaceEngineersPrograms/Core/StorageDataSerializer.cs:173 | the same bits read as an `int` |
| StorageSerializer.StorageDataSerializer.ReadUInt64 | SpaceEngineersPrograms/Core/StorageDataSerializer.cs:175-180 | the next eight bytes as a little-endian value, or the end-of-data exception |
| StorageSerializer.StorageDataSerializer.ReadInt64 | SpaceEngineersPrograms/Core/StorageDataSerializer.cs:182 | the same bits read as a `long` |
| StorageSerializer.StorageDataSerializer.ReadString | SpaceEngineersPrograms/Core/StorageDataSerializer.cs:184-188 | a signed 32-bit byte count, then exactly that many bytes; a negative count or too few bytes fail as `ReadBytes` fails |
| StorageSerializer.StorageDataSerializer.WriteBytes | SpaceEngineersPrograms/Core/StorageDataSerializer.cs:190-198 | null throws and changes nothing; otherwise the bytes are appended and the cache dropped |
| StorageSerializer.StorageDataSerializer.WriteByte | SpaceEngineersPrograms/Core/StorageDataSerializer.cs:200-204 | the byte is appended and the cache dropped |
| StorageSerializer.StorageDataSerializer.WriteUInt16 | SpaceEngineersPrograms/Core/StorageDataSerializer.cs:206-210 | the little-endian bytes of the value are appended |
| StorageSerializer.StorageDataSerializer.WriteInt16 | SpaceEngineersPrograms/Core/StorageDataSerializer.cs:212 | the value's unsigned bits are appended little-endian |
| StorageSerializer.StorageDataSerializer.WriteUInt32 | SpaceEngineersPrograms/Core/StorageDataSerializer.cs:214-218 | the little-endian bytes of the value are appended |
| StorageSerializer.StorageDataSerializer.WriteInt32 | SpaceEngineersPrograms/Core/StorageDataSerializer.cs:220 | the value's unsigned bits are appended little-endian |
| StorageSerializer.StorageDataSerializer.WriteUInt64 | SpaceEngineersPrograms/Core/StorageDataSerializer.cs:222-226 | the little-endian bytes of the value are appended |
| StorageSerializer.StorageDataSerializer.WriteInt64 | SpaceEngineersPrograms/Core/StorageDataSerializer.cs:228 | the value's unsigned bits are appended little-endian |
| StorageSerializer.StorageDataSerializer.WriteString | SpaceEngineersPrograms/Core/StorageDataSerializer.cs:230-239 | null throws and changes nothing; otherwise the byte count as an `int`, then the bytes, are appended |
| StorageSerializer.StorageDataSerializer.Clear | SpaceEngineersPrograms/Core/StorageDataSerializer.cs:241-245 | the data is emptied and the position rewound, while the cached string is kept |
| StorageSerializer.StorageDataSerializer.ClearAndInvalidate | SpaceEngineersPrograms/Core/StorageDataSerializer.cs:241-245 | `Clear` as evidently intended: it also drops the cache, so the storage string again describes the data |
| StorageSerializer.CacheSurvivesClear | SpaceEngineersPrograms/Core/StorageDataSerializer.cs:241-245 | a buffer built from "00" and cleared holds no bytes yet still reports "00"; cleared with `ClearAndInvalidate` it reports "" |
| StorageSerializer.StringRoundTrip | SpaceEngineersPrograms/Core/StorageDataSerializer.cs:184-188 | a string's bytes written with `WriteString` read back unchanged with `ReadString` |
| StorageSerializer.Int64RoundTrip | SpaceEngineersPrograms/Core/StorageDataSerializer.cs:175-182 | a `long` written after any prefix reads back as itself from where it starts |
| ArgumentStrings.ArgumentString.ToString | SpaceEngineersPrograms/Core/ArgumentString.cs:27 | the text starts with the argument's name and goes on with " (optional)" exactly when the argument is optional |
| ArgumentStrings.ArgumentString.Equals | SpaceEngineersPrograms/Core/ArgumentString.cs:29 | two arguments are `Equals` exactly when their names are equal, whatever their optional flags; `FactoriesKeepName` shows a required and an optional argument of one name to be equal |
| ArgumentStrings.Optional | SpaceEngineersPrograms/Core/ArgumentString.cs:21 | `Optional` fails exactly for a `null` name; otherwise the argument keeps the name and is optional |
| ArgumentStrings.Required | SpaceEngineersPrograms/Core/ArgumentString.cs:23-25 | `Required`, and the implicit conversion that calls it, fail exactly for a `null` name; otherwise the argument keeps the name and is required |
| ArgumentStrings.NewArgumentString | SpaceEngineersPrograms/Core/ArgumentString.cs:11-19 | a null name throws `ArgumentNullException`, and nothing else does; otherwise the name and flag are kept |
| ArgumentStrings.FactoriesKeepName | SpaceEngineersPrograms/Core/ArgumentString.cs:21-29 | `Optional` and `Required` (and so the implicit conversion) keep the name, only `Optional` marks it optional, and the two results are `Equals` although they differ |
| CommandEntries.NewCommand | SpaceEngineersPrograms/Core/Command.cs:44-72 | the constructor succeeds exactly when no reference parameter is null, names the first null one otherwise, and builds a command that is not an alias |
| CommandEntries.NewDefaultCommand | SpaceEngineersPrograms/Core/Command.cs:88 | the short `New` uses the description "Command: " plus the name and "No help topic available." |
| CommandEntries.CreateAlias | SpaceEngineersPrograms/Core/Command.cs:74-86 | an alias is the command under the new name, sharing its texts, delegate and arguments and pointing back at it; a null alias throws |
| CommandEntries.Command.IsAlias | SpaceEngineersPrograms/Core/Command.cs:17 | a command is an alias exactly when it points to the command it aliases; `NewCommand` and `CreateAlias` state which commands are |
| CommandEntries.Command.ToString | SpaceEngineersPrograms/Core/Command.cs:98 | a command prints as its name; `Equals` and `GetHashCode` compare names, which the registry models by keying its set and lookup by name |
| CommandEntries.GetHelpString | SpaceEngineersPrograms/Core/Command.cs:23-42 | the loop produces the description, a blank line, the full description, a blank line, "Usage: " and the name, then each argument as the delimiter and `<argument>` |
| CommandEntries.UsageAppend | SpaceEngineersPrograms/Core/Command.cs:32-38 | the usage text of a run of arguments split in two is the usage of the first part followed by that of the second |
| CommandEntries.UsageAt | SpaceEngineersPrograms/Core/Command.cs:32-38 | argument i contributes exactly the delimiter and `<` its text `>`, placed after the usage of the arguments before it and before that of the arguments after it, so every argument appears once and in order |
| CommandSets.LeadingRequired | SpaceEngineersPrograms/Core/Commands.cs:187-195 | the required count is the number of leading non-optional arguments: all before it are required and the next, if any, is optional |
| CommandSets.SortedUnique | SpaceEngineersPrograms/Core/Commands.cs:23-24 | two sorted lists without repetitions of the same names are equal, so the sorted listing does not depend on the set's order |
| CommandSets.Commands.constructor | SpaceEngineersPrograms/Core/Commands.cs:68-72 | a new registry is empty and keeps the given delimiter and default result |
| CommandSets.Commands.Register | SpaceEngineersPrograms/Core/Commands.cs:86-90 | `commands.Add` then `commandLookup.Add`: the command is registered exactly when its name is free, and then the set and the lookup both gain it |
| CommandSets.Commands.AddWithContext | SpaceEngineersPrograms/Core/Commands.cs:78-92 | a null or white-space name throws; otherwise the trimmed lower-cased name is registered with a default command when free, and a taken name gives false and changes nothing |
| CommandSets.Commands.AddDescribed | SpaceEngineersPrograms/Core/Commands.cs:94-104 | the name is used exactly as given; a null parameter throws and changes nothing; otherwise as `Add` |
| CommandSets.Commands.Add | SpaceEngineersPrograms/Core/Commands.cs:74 | the delegate without context is wrapped so that a null delegate returns the default result, then registered as the context `Add` does |
| CommandSets.Commands.AddAliases | SpaceEngineersPrograms/Core/Commands.cs:106-141 | a null name or alias list throws and an unknown command gives false, changing nothing; otherwise the aliases are registered in order up to a null one (which throws) or a taken one (false), those before it stay, and the result is true only when all of at least one were added |
| CommandSets.Commands.RegisterAliases | SpaceEngineersPrograms/Core/Commands.cs:121-138 | the alias loop adds exactly the leading aliases that are non-null and free, each as an alias of the command, and keeps every existing entry |
| CommandSets.Commands.Remove | SpaceEngineersPrograms/Core/Commands.cs:143-159 | a null or white-space name throws; otherwise exactly the normalised name leaves the set and the lookup, its aliases stay, and the result says whether it was there |
| CommandSets.Commands.RequiredArguments | SpaceEngineersPrograms/Core/Commands.cs:187-195 | the counting loop stops at the first optional argument and returns the required count |
| CommandSets.Commands.InputArguments | SpaceEngineersPrograms/Core/Commands.cs:198-202 | the copy loop returns every piece after the command name, in order |
| CommandSets.Commands.Parse | SpaceEngineersPrograms/Core/Commands.cs:171-208 | a null line throws; otherwise the trimmed, not lower-cased, first piece is looked up, and a known command runs on the remaining pieces exactly when there are more pieces than required arguments; every other case gives the default result |
| CommandSets.Commands.TopicLinesOf | SpaceEngineersPrograms/Core/Commands.cs:25-33 | the loop writes one "name: description" line for every command of the sorted list that is not an alias, in order |
| CommandSets.Commands.GetHelpTopic | SpaceEngineersPrograms/Core/Commands.cs:19-42 | the general topic lists exactly the non-alias commands, sorted by name and without repetition, then the usage line with the delimiter |
| CommandSets.Commands.GetHelpTopicFor | SpaceEngineersPrograms/Core/Commands.cs:44-66 | a null name throws; a known normalised name gives "Help topic: " and its help string; any other name falls back to the general topic |
| CommandSets.AliasesAdded | SpaceEngineersPrograms/Core/Commands.cs:121-138 | the loop stops at a null alias or at the first name already taken, so every alias before the stop is non-null |
| CommandSets.AllAliasesAdded | SpaceEngineersPrograms/Core/Commands.cs:121-138 | aliases that are all non-null, free and different from each other are all added |
| CommandSets.NonAliasesMembers | SpaceEngineersPrograms/Core/Commands.cs:27 | the help filter keeps exactly the names of commands that are not aliases |
| CommandSets.NonAliasesSorted | SpaceEngineersPrograms/Core/Commands.cs:24-27 | filtering a sorted list keeps it sorted |
| CommandSets.NonAliasesDistinct | SpaceEngineersPrograms/Core/Commands.cs:23-27 | filtering a list without repetitions keeps it without repetitions |
| CommandSets.NonAliasesListing | SpaceEngineersPrograms/Core/Commands.cs:23-33 | the filtered sorted key list is a valid listing of the non-alias commands |
| Escapes.PatternsStartWithBackslash | SpaceEngineersPrograms/Programs/LoggerProgram.cs:10-22 | every escape pattern of the table is a backslash sequence |
| Escapes.UnescapePlain | SpaceEngineersPrograms/Programs/OSs/Programs/FileSystemProgram.cs:840-848 | unescaping leaves a text without a backslash unchanged |
| Escapes.Unescape | SpaceEngineersPrograms/Programs/LoggerProgram.cs:59-67 | the escape table applied pattern by pattern in order, as `AppendOutput` here and `UnescapeText` of the file-system program (FileSystemProgram.cs:840-848) do; `UnescapePlain` states that backslash-free text is kept |
| Escapes.UnescapeAll | SpaceEngineersPrograms/Programs/LoggerProgram.cs:59-67 | one unescaped text per argument, in order |
| Escapes.UnescapeAllPlain | SpaceEngineersPrograms/Programs/LoggerProgram.cs:59-67 | backslash-free arguments are taken as they are |
| Escapes.DataArguments | SpaceEngineersPrograms/Programs/LoggerProgram.cs:59-67 | the data of a command is every argument after the first |
| Escapes.JoinStep | SpaceEngineersPrograms/Programs/LoggerProgram.cs:59-67 | one more round of the appending loop adds the separator (except the first time) and the next unescaped argument |
| Escapes.JoinedDataPlain | SpaceEngineersPrograms/Programs/LoggerProgram.cs:59-67 | arguments without a backslash are written as given, joined with a bar |
| Sorting.OrdinalTotal | SpaceEngineersPrograms/Core/Commands.cs:24 | any two names are ordered one way or the other by the comparison the sort uses |
| Sorting.OrdinalAntisymmetric | SpaceEngineersPrograms/Core/Commands.cs:24 | two names ordered both ways are equal |
| Sorting.Insert | SpaceEngineersPrograms/Core/Commands.cs:24 | inserting into a sorted list keeps it sorted and adds exactly the new element |
| Sorting.SortKeys | SpaceEngineersPrograms/Core/Commands.cs:23-24 | the sorted copy of the command set holds each name once, in order |
| Seqs.FirstIndexOf | JSONParser/JsonList.cs:90-93 | the first occurrence: the element is there and nowhere before it |
| Seqs.RemoveFirst | JSONParser/JsonList.cs:90-93 | `List.Remove` drops exactly the first occurrence, keeps the order of the rest, and changes nothing when the element is absent |
| Ints.ToUnsigned | SpaceEngineersPrograms/Core/StorageDataSerializer.cs:212 | an unchecked signed-to-unsigned cast keeps non-negative values and adds the modulus to negative ones |
| Ints.ToSigned | SpaceEngineersPrograms/Core/StorageDataSerializer.cs:164 | an unchecked unsigned-to-signed cast keeps the lower half and subtracts the modulus from the upper half |
| Ints.Wrap32 | JSONParser/JSON.cs:24 | unchecked `int` arithmetic: the result is a 32-bit value congruent to the exact one, and equal to it when it fits |
| Ints.SignedRoundTrip | SpaceEngineersPrograms/Core/StorageDataSerializer.cs:164-173 | reinterpreting the bits twice gives the value back, in both directions |
| Text.SkipFrom | JSONParser/JSON.cs:91 | the first position at or after the start whose character is kept, with every character skipped before it dropped |
| Text.BackFrom | JSONParser/JSON.cs:91 | the position just past the last kept character before the end, with every character after it dropped |
| Text.TrimBy | JSONParser/JSON.cs:91 | `Trim(chars)`: the result is the piece of the text after the dropped prefix; it neither starts nor ends with a dropped character, and everything cut off on either side is dropped |
| Text.TrimByIdentity | JSONParser/JSON.cs:91 | trimming leaves a text without droppable characters unchanged |
| Text.TrimKeepsEnds | SpaceEngineersPrograms/Core/Commands.cs:182 | trimming leaves a text that neither starts nor ends with white space unchanged |
| Text.JoinSnoc | SpaceEngineersPrograms/Programs/LoggerProgram.cs:59-67 | joining one more piece appends the separator and the piece |
| Text.Split | SpaceEngineersPrograms/Core/Commands.cs:179 | `Split(char)` gives at least one piece, no piece holds the delimiter, and joining the pieces with it gives the text back |
| Text.SplitJoin | SpaceEngineersPrograms/Core/Commands.cs:179 | splitting undoes joining when no part holds the delimiter |
| Text.SplitHead | SpaceEngineersPrograms/Core/Commands.cs:179-182 | the first piece is a prefix of the text, followed by the delimiter whenever the text goes on |
| Text.SplitAppend | SpaceEngineersPrograms/Programs/EngineersOS.cs:863-866 | text fed in two chunks splits into the pieces of the whole |
| Text.SplitAtLast | SpaceEngineersPrograms/Programs/OSs/Programs/FileSystemProgram.cs:138-160 | the last occurrence of the delimiter splits a text in one way only |
| Text.Replace | JSONParser/JsonList.cs:66 | `Replace` leaves a text without the pattern unchanged |
| Text.ReplaceSame | JSONParser/JsonList.cs:66 | replacing a pattern by itself changes nothing |
| Text.ReplaceKeepsOut | SpaceEngineersPrograms/Programs/EngineersOS.cs:13-45 | replacing cannot bring in a character that neither the text nor the replacement holds |
| Text.ReplaceCharOut | SpaceEngineersPrograms/Programs/EngineersOS.cs:13-45 | replacing a character by a text without it leaves none of it |
| Text.ReplaceOneChar | SpaceEngineersPrograms/Programs/EngineersOS.cs:13-45 | replacing a one-character pattern maps each occurrence of that character to the replacement |
| Text.ReplaceCharGrows | SpaceEngineersPrograms/Programs/EngineersOS.cs:13-45 | replacing a character by a nonempty text never shortens the text, and lengthens it by at least the extra length of the replacement when the character occurs |
| Text.ReplaceCharKeeps | SpaceEngineersPrograms/Programs/EngineersOS.cs:13-45 | a character other than the replaced one that occurs in the text still occurs after the replacement |
| Text.IndexOfAny | JSONParser/JSON.cs:62 | `IndexOfAny(chars, start)`: the first index at or after `start` holding one of the characters, or -1 when none follows |
| Text.ToLower | SpaceEngineersPrograms/Core/Commands.cs:51 | lower-casing keeps the length and maps each character on its own |
| Text.NatToString | SpaceEngineersPrograms/Core/StorageDataSerializer.cs:122 | the decimal digits of a non-negative number, whose value is the number |
| Text.IntToString | SpaceEngineersPrograms/Core/StorageDataSerializer.cs:122 | a minus sign exactly for a negative number |
| Text.SplitInChunks | SpaceEngineersPrograms/Programs/EngineersOS.cs:863-866 | splitting a text, then its last piece with more text, gives the pieces of the whole text |
| Text.SplitFramed | SpaceEngineersPrograms/Programs/EngineersOS.cs:684-701 | pieces without the delimiter, between an empty piece in front and one behind, split back out of their join |
| Text.JoinAppend | SpaceEngineersPrograms/Programs/OSs/Programs/FileSystemProgram.cs:138-160 | joining two runs of pieces joins each and puts one separator between them |
| Text.JoinCons | SpaceEngineersPrograms/Programs/OSs/Programs/FileSystemProgram.cs:138-160 | joining a piece in front adds the piece and one separator |
| Text.SplitAtFirst | SpaceEngineersPrograms/Core/Commands.cs:179 | the first piece of a split ends at the first delimiter, and the rest splits on its own |
| Text.FirstIndexAt | SpaceEngineersPrograms/Core/Commands.cs:179 | the first occurrence is at `k` exactly when `s[k]` is the character and nothing before it is |
| Text.ContainsChar | SpaceEngineersPrograms/Core/FileSystem.cs:121-133 | `Contains` of a one-character string is membership of that character |
| Text.FlatMapChars | SpaceEngineersPrograms/Programs/EngineersOS.cs:13-45 | every character of a replaced text comes from the image of some character of the input |
| JsonElements.Children | JSONParser/JsonObject.cs:58-75 | the children of an object's entries, one per entry, in enumeration order |
| JsonElements.Names | JSONParser/JsonObject.cs:27-33 | the keys of an object's entries, one per entry, in enumeration order |
| JsonParser.RunUnfold | JSONParser/JSON.cs:60-156 | one turn of the parsing loop: a failing character ends the run with that error, a pause stops after the step, otherwise the loop goes on from the new state |
| JsonParser.Run | JSONParser/JSON.cs:60-159 | the reference run of the parse loop from a state until the text ends, a character fails or the pause predicate says yes; `RunLoop` is proved to compute it and `PausingIsTransparent` shows pauses lose nothing |
| JsonParser.UnexpectedMessage | JSONParser/JSON.cs:169-174 | the message of an unexpected character: the expected characters quoted and joined by `', '` inside `[ ]`, then what was received |
| CommandSets.NonAliases | SpaceEngineersPrograms/Core/Commands.cs:25-38 | the filter keeps names of the command set, in their order |
| CommandSets.SortedHeadLeast | SpaceEngineersPrograms/Core/Commands.cs:23-24 | the first name of a sorted list is ordered before every other name |
| CommandSets.OrdinalTransitive | SpaceEngineersPrograms/Core/Commands.cs:24 | the ordinal comparison is transitive |
| EngineersOSs.EncodeChar | SpaceEngineersPrograms/Programs/EngineersOS.cs:13-45 | a key character becomes `%` and two digits, any other character stays as it is |
| EngineersOSs.HexOfKey | SpaceEngineersPrograms/Programs/EngineersOS.cs:13-45 | every code is made of code characters and decodes back to its key, and no key but `%` is a code character |
| EngineersOSs.CodedIsKey | SpaceEngineersPrograms/Programs/EngineersOS.cs:13-45 | exactly the 25 replaced characters have a code |
| EngineersOSs.KeyOutsideCodes | SpaceEngineersPrograms/Programs/EngineersOS.cs:13-45 | no key other than `%` occurs inside any character's escape |
| EngineersOSs.EscapePath | SpaceEngineersPrograms/Programs/EngineersOS.cs:13-45 | `EscapePath` as written: a `null` input throws `ArgumentNullException`, any other input goes through the 25 replacements in order |
| EngineersOSs.EscapeStepsSplit | SpaceEngineersPrograms/Programs/EngineersOS.cs:13-45 | the replacement chain can be cut at any step and resumed |
| EngineersOSs.EscapeStepsPlain | SpaceEngineersPrograms/Programs/EngineersOS.cs:13-45 | replacements whose key is absent leave the text unchanged |
| EngineersOSs.EscapeStepKeepsOut | SpaceEngineersPrograms/Programs/EngineersOS.cs:13-45 | one replacement removes its own key and brings back no key other than `%` |
| EngineersOSs.EscapeStepsKeepOut | SpaceEngineersPrograms/Programs/EngineersOS.cs:13-45 | a key other than `%` that has been replaced never comes back in later steps |
| EngineersOSs.EscapePathLeavesNoKey | SpaceEngineersPrograms/Programs/EngineersOS.cs:13-45 | the escaped text holds none of the 24 keys other than `%` |
| EngineersOSs.EscapePathPlain | SpaceEngineersPrograms/Programs/EngineersOS.cs:13-45 | a name without any key character is its own escape |
| EngineersOSs.EscapeSpace | SpaceEngineersPrograms/Programs/EngineersOS.cs:19-32 | the replacements before the one for `%` turn a space into `%20` |
| EngineersOSs.EscapePercentTwenty | SpaceEngineersPrograms/Programs/EngineersOS.cs:33-44 | the replacements from the one for `%` on turn `%20` into `%2520` |
| EngineersOSs.EscapePathCollision | SpaceEngineersPrograms/Programs/EngineersOS.cs:13-45 | the distinct names " " and "%20" both escape to `%2520`, so as written the escape is not injective |
| EngineersOSs.EscapeStepsGrow | SpaceEngineersPrograms/Programs/EngineersOS.cs:13-45 | no replacement step shortens the text, and the range of steps that includes the one for `%` lengthens a text holding `%` by at least two |
| EngineersOSs.EscapePathGrows | SpaceEngineersPrograms/Programs/EngineersOS.cs:13-45 | the key is never shorter than the name, and a name holding `%` gets a key at least two characters longer, so it is never its own key |
| EngineersOSs.EscapePathEmpty | SpaceEngineersPrograms/Programs/EngineersOS.cs:13-45 | the key is empty exactly when the name is, which makes the `key.Length > 0` tests the same as a nonempty name |
| EngineersOSs.PercentStepKeepsOut | SpaceEngineersPrograms/Programs/EngineersOS.cs:33-44 | once `%` has been replaced in a text made of code characters, none of the keys after `%` in the chain occurs |
| EngineersOSs.EscapeCodeTextFromPercent | SpaceEngineersPrograms/Programs/EngineersOS.cs:33-44 | on a text made of code characters the steps from the one for `%` on only replace each `%` by `%25` |
| EngineersOSs.EscapeCodeText | SpaceEngineersPrograms/Programs/EngineersOS.cs:13-45 | escaping a text made of code characters, such as an existing key, only turns each `%` into `%25` |
| EngineersOSs.EscapeSpaceKey | SpaceEngineersPrograms/Programs/EngineersOS.cs:13-45 | the key `%2520` escapes again to `%252520` |
| EngineersOSs.PercentEncode | SpaceEngineersPrograms/Programs/EngineersOS.cs:13-45 | the corrected escape: each character replaced by its own code once; no contract of its own, `PercentRoundTrip` and the lemmas after it state what it keeps |
| EngineersOSs.PercentDecode | SpaceEngineersPrograms/Programs/EngineersOS.cs:13-45 | reads a key back, each `%` and two hex digits of a replaced character becoming that character; no contract of its own, `PercentRoundTrip` states that it inverts `PercentEncode` |
| EngineersOSs.PercentRoundTrip | SpaceEngineersPrograms/Programs/EngineersOS.cs:13-45 | decoding undoes the corrected escape, on every text |
| EngineersOSs.PercentEncodeInjective | SpaceEngineersPrograms/Programs/EngineersOS.cs:13-45 | with the corrected escape distinct names get distinct keys |
| EngineersOSs.PercentEncodeLeavesNoKey | SpaceEngineersPrograms/Programs/EngineersOS.cs:13-45 | the corrected escape also leaves none of the 24 keys other than `%` |
| EngineersOSs.PercentEncodePlain | SpaceEngineersPrograms/Programs/EngineersOS.cs:13-45 | the corrected escape leaves a name without key characters unchanged, as `EscapePath` does |
| EngineersOSs.KeyHasNoSlash | SpaceEngineersPrograms/Programs/EngineersOS.cs:35 | the key `EscapePath` gives for any name never holds `/`, because `/` is one of the replaced characters and no later step brings it back |
| EngineersOSs.PathString | SpaceEngineersPrograms/Programs/EngineersOS.cs:684-701 | the current-directory string starts and ends with `/` |
| EngineersOSs.Parts | SpaceEngineersPrograms/Programs/EngineersOS.cs:684-701 | the names from the root down are nonempty and hold no `/` |
| EngineersOSs.PathStringParts | SpaceEngineersPrograms/Programs/EngineersOS.cs:684-701 | the current-directory string is the names from the root down, joined by `/`, between a leading and a trailing `/` |
| EngineersOSs.PathStringSplits | SpaceEngineersPrograms/Programs/EngineersOS.cs:684-701 | splitting the current-directory string at `/` gives its names between two empty parts |
| EngineersOSs.PathStringFrame | SpaceEngineersPrograms/Programs/EngineersOS.cs:684-701 | the current-directory string depends only on the names and parents of the objects above |
| EngineersOSs.BuildPathString | SpaceEngineersPrograms/Programs/EngineersOS.cs:690-697 | the getter's loop, inserting each name and `/` in front while walking up the parents, builds exactly the current-directory string |
| EngineersOSs.NoEmptyKey | SpaceEngineersPrograms/Programs/EngineersOS.cs:516-550 | no child is ever filed under the empty key |
| EngineersOSs.Step | SpaceEngineersPrograms/Programs/EngineersOS.cs:741-758 | one part of a path leads to an existing object or to nothing |
| EngineersOSs.Walk | SpaceEngineersPrograms/Programs/EngineersOS.cs:739-763 | following the parts in order leads to an existing object or to nothing |
| EngineersOSs.Resolve | SpaceEngineersPrograms/Programs/EngineersOS.cs:723-771 | `GetPath` leads to an existing object or to nothing |
| EngineersOSs.WalkAppend | SpaceEngineersPrograms/Programs/EngineersOS.cs:739-763 | walking two runs of parts is walking the first and then the second from where the first ended, and nothing when the first fails |
| EngineersOSs.AbsolutePathFailsAsWritten | SpaceEngineersPrograms/Programs/EngineersOS.cs:728-757 | as written, every absolute path and the empty path resolve to nothing, because the empty part before the `/` is looked up as a child |
| EngineersOSs.WalkParts | SpaceEngineersPrograms/Programs/EngineersOS.cs:739-763 | walking an object's names from the root finds the object |
| EngineersOSs.ResolveAbsolute | SpaceEngineersPrograms/Programs/EngineersOS.cs:728-736 | a path starting and ending with `/` is walked from the root, part by part |
| EngineersOSs.WalkFramedParts | SpaceEngineersPrograms/Programs/EngineersOS.cs:739-763 | with empty parts skipped, an object's names between two empty parts lead from the root to the object |
| EngineersOSs.PathStringResolves | SpaceEngineersPrograms/Programs/EngineersOS.cs:684-771 | with empty parts skipped, the current-directory string of any reachable object resolves, from any directory, to that object |
| EngineersOSs.PathStringFailsAsWritten | SpaceEngineersPrograms/Programs/EngineersOS.cs:684-771 | as written, the shell's own current-directory string never resolves |
| EngineersOSs.RelativePathResolves | SpaceEngineersPrograms/Programs/EngineersOS.cs:723-771 | as written, an object's names joined by `/` without a leading or trailing `/` resolve from the root to the object, when the joined text does not start or end with white space |
| EngineersOSs.PathStep | SpaceEngineersPrograms/Programs/EngineersOS.cs:741-762 | one round of the loop as written (only `.` is skipped, an empty part is looked up as a key): it gives up when the rest of the walk leads nowhere, or moves to the object from which the rest of the walk leads to the same place |
| EngineersOSs.FollowParts | SpaceEngineersPrograms/Programs/EngineersOS.cs:739-763 | the loop over the parts, as written, ends where `Walk` without skipping empty parts ends |
| EngineersOSs.ResolvePath | SpaceEngineersPrograms/Programs/EngineersOS.cs:723-771 | the body of `GetPath` as written computes `Resolve` without skipping empty parts |
| EngineersOSs.AddChildWellFormed | SpaceEngineersPrograms/Programs/EngineersOS.cs:516-550 | filing a fresh object with a nonempty name without `/` under a free key keeps the tree's shape and every existing object |
| EngineersOSs.RemoveChildWellFormed | SpaceEngineersPrograms/Programs/EngineersOS.cs:552-571 | removing a key keeps the tree's shape and every object's name and parent |
| EngineersOSs.SetContentWellFormed | SpaceEngineersPrograms/Programs/EngineersOS.cs:475-484 | writing a file's text keeps the tree's shape |
| EngineersOSs.InitialObjectsWellFormed | SpaceEngineersPrograms/Programs/EngineersOS.cs:635-642 | the initial tree of root, `apps`, `files`, `commands` and its `list`, `ls` and `dir` commands has the shape, with ids below 7 |
| EngineersOSs.Kind.IsFile | SpaceEngineersPrograms/Programs/EngineersOS.cs:436 | only a file is a file; every other class answers false |
| EngineersOSs.Kind.IsDirectory | SpaceEngineersPrograms/Programs/EngineersOS.cs:97 | the commands directory, the apps directory, a plain directory and the root are directories |
| EngineersOSs.Kind.CanRead | SpaceEngineersPrograms/Programs/EngineersOS.cs:440 | only a file can be read |
| EngineersOSs.Kind.CanWrite | SpaceEngineersPrograms/Programs/EngineersOS.cs:442 | only a file can be written |
| EngineersOSs.Kind.CanExecute | SpaceEngineersPrograms/Programs/EngineersOS.cs:103 | only a command and an app can be executed |
| EngineersOSs.Kind.CanCreateFile | SpaceEngineersPrograms/Programs/EngineersOS.cs:501 | only a plain directory creates files |
| EngineersOSs.Kind.CanCreateDirectory | SpaceEngineersPrograms/Programs/EngineersOS.cs:503 | only a plain directory creates directories |
| EngineersOSs.Kind.CanDeleteFile | SpaceEngineersPrograms/Programs/EngineersOS.cs:505 | only a plain directory deletes files |
| EngineersOSs.Kind.CanDeleteDirectory | SpaceEngineersPrograms/Programs/EngineersOS.cs:507 | only a plain directory deletes directories |
| EngineersOSs.CanDeleteSelf | SpaceEngineersPrograms/Programs/EngineersOS.cs:109-115 | an object may delete itself exactly when it has a parent and is a file of a parent that deletes files or a directory of a parent that deletes directories |
| EngineersOSs.CanAdd | SpaceEngineersPrograms/Programs/EngineersOS.cs:516-550 | a directory adds an object exactly when it is a plain directory, the name is given and nonempty, and the name's `EscapePath` key is not yet a child |
| EngineersOSs.Executes | SpaceEngineersPrograms/Programs/EngineersOS.cs:773-789 | a command runs exactly when it is given, its text up to the first space resolves as written to an object that can execute, and that object is a command or an app whose block runs the rest of the line |
| EngineersOSs.AddKeepsState | SpaceEngineersPrograms/Programs/EngineersOS.cs:516-550 | adding an object under the next id keeps the shell's invariant |
| EngineersOSs.SameLinksKeepState | SpaceEngineersPrograms/Programs/EngineersOS.cs:475-484 | a change that keeps every id, name and parent keeps the shell's invariant, cached string included |
| EngineersOSs.DeleteSelfMatchesFlags | SpaceEngineersPrograms/Programs/EngineersOS.cs:109-115 | the root can never delete itself, and an attached object's parent removes its key exactly when `CanDeleteSelf` holds |
| EngineersOSs.DeleteAsWrittenMisses | SpaceEngineersPrograms/Programs/EngineersOS.cs:141 | when the parent holds only the object's own key and that key holds `%`, the key itself is removable but the key `Delete` looks up, the name escaped again, is not |
| EngineersOSs.DeleteAsWrittenCounterexample | SpaceEngineersPrograms/Programs/EngineersOS.cs:141 | a name " " escapes to the key `%2520`; the file filed under it in `files` may delete itself, but `Delete` looks up `%252520`, which is not a child |
| EngineersOSs.CommandSplitsAtFirstSpace | SpaceEngineersPrograms/Programs/EngineersOS.cs:778-784 | the application path and the argument give the command back; the path holds no space and the argument is empty or starts with one |
| EngineersOSs.Argument | SpaceEngineersPrograms/Programs/EngineersOS.cs:778-784 | what `Execute` passes on: the command after its first word, or empty when there is nothing after it; `CommandSplitsAtFirstSpace` states how the two halves give the command back |
| EngineersOSs.ReadInputInChunks | SpaceEngineersPrograms/Programs/EngineersOS.cs:856-886 | typing text in two pieces executes the same lines, in the same order, and keeps the same unfinished line as typing it at once |
| EngineersOSs.Shell.constructor | SpaceEngineersPrograms/Programs/EngineersOS.cs:704-708 | the shell starts at the root of the initial tree, with no cached string |
| EngineersOSs.Shell.SetCurrentDirectoryPath | SpaceEngineersPrograms/Programs/EngineersOS.cs:677-681 | no object means the root; the cached string is dropped |
| EngineersOSs.Shell.CurrentDirectory | SpaceEngineersPrograms/Programs/EngineersOS.cs:684-702 | the getter returns the current directory's path string and caches it |
| EngineersOSs.Shell.GetPath | SpaceEngineersPrograms/Programs/EngineersOS.cs:723-771 | `GetPath` as written returns what `Resolve` gives without skipping empty parts, so an absolute path finds nothing |
| EngineersOSs.Shell.ChangeDirectory | SpaceEngineersPrograms/Programs/EngineersOS.cs:710-721 | moves to the object `GetPath` as written resolves exactly when it is a directory, drops the cached string then, and returns the resolved object either way |
| EngineersOSs.Shell.Execute | SpaceEngineersPrograms/Programs/EngineersOS.cs:773-789 | a command succeeds exactly when its first word resolves, as written, to an executable object and that object's execution of the rest of the line succeeds |
| EngineersOSs.Shell.CreateFile | SpaceEngineersPrograms/Programs/EngineersOS.cs:516-532 | a file is created exactly when the directory is a plain one, the name is given and nonempty and its `EscapePath` key is free; the new file is filed under that key, holds none of the keys other than `%`, and nothing changes otherwise |
| EngineersOSs.Shell.CreateDirectory | SpaceEngineersPrograms/Programs/EngineersOS.cs:534-550 | the same for a new empty directory |
| EngineersOSs.Shell.Add | SpaceEngineersPrograms/Programs/EngineersOS.cs:516-550 | the shared part of both: the name is escaped by `EscapePath` and a fresh object filed under that key exactly when `CanAdd` holds |
| EngineersOSs.Shell.DeleteChild | SpaceEngineersPrograms/Programs/EngineersOS.cs:552-571 | succeeds exactly when the name is given and nonempty and its `EscapePath` key is a child the directory's flags allow it to delete, and then removes only that key |
| EngineersOSs.Shell.Delete | SpaceEngineersPrograms/Programs/EngineersOS.cs:141 | `Delete` as written: it succeeds exactly when the parent's `DeleteChild` does on the object's name escaped once more, and then removes that escaped key |
| EngineersOSs.Shell.DeleteSelf | SpaceEngineersPrograms/Programs/EngineersOS.cs:109-115 | the corrected `Delete` succeeds exactly when `CanDeleteSelf` holds and the object is still filed in its parent, and then removes its own key |
| EngineersOSs.Shell.Read | SpaceEngineersPrograms/Programs/EngineersOS.cs:469-472 | only a file reads, giving its text; every other object fails with the empty text |
| EngineersOSs.Shell.Write | SpaceEngineersPrograms/Programs/EngineersOS.cs:475-484 | only a file takes a text and only a non-null one, nothing else changes, and reading it back gives that text |
| EngineersOSs.Console.constructor | SpaceEngineersPrograms/Programs/EngineersOS.cs:832-836 | a new console has a fresh shell and an empty input buffer |
| EngineersOSs.Console.ReadInput | SpaceEngineersPrograms/Programs/EngineersOS.cs:856-886 | no or empty input changes nothing; otherwise the last unfinished line is kept and every completed line is executed in order by `Execute` as written, each result recording whether it succeeded |
| LoggerPrograms.ApplicationId | SpaceEngineersPrograms/Programs/LoggerProgram.cs:74-81 | `null` arguments throw `ArgumentNullException`; no arguments give `"0"`; otherwise the result is a piece of the first argument that neither starts nor ends with white space |
| LoggerPrograms.TrimIsPiece | SpaceEngineersPrograms/Programs/LoggerProgram.cs:80 | the trimmed text is a piece of the original |
| LoggerPrograms.Lines | SpaceEngineersPrograms/Programs/LoggerProgram.cs:105-108 | every key is followed by a line break, so the listing is at least one line break per key long |
| LoggerPrograms.LoggerProgram.constructor | SpaceEngineersPrograms/Programs/LoggerProgram.cs:26-28 | a new logger has no buffers and empty custom data |
| LoggerPrograms.LoggerProgram.GetOrCreateAppOutput | SpaceEngineersPrograms/Programs/LoggerProgram.cs:44-57 | gives the existing buffer of the ID, or adds and gives an empty one; no other buffer changes |
| LoggerPrograms.LoggerProgram.Buffer | SpaceEngineersPrograms/Programs/LoggerProgram.cs:147-149 | the text of an application's buffer, empty when there is none, as `read` shows it |
| LoggerPrograms.LoggerProgram.AppendOutput | SpaceEngineersPrograms/Programs/LoggerProgram.cs:59-67 | appends the unescaped text to the buffer of the ID and changes nothing else |
| LoggerPrograms.LoggerProgram.AppendArguments | SpaceEngineersPrograms/Programs/LoggerProgram.cs:86-98 | the argument loop appends the unescaped data arguments joined with a bar |
| LoggerPrograms.LoggerProgram.AppendCommand | SpaceEngineersPrograms/Programs/LoggerProgram.cs:83-100 | `null` arguments throw; otherwise the joined data is appended to the application's buffer, created if needed, and the command succeeds |
| LoggerPrograms.LoggerProgram.WriteCommand | SpaceEngineersPrograms/Programs/LoggerProgram.cs:153-171 | `null` arguments throw; otherwise the application's buffer becomes exactly the joined data |
| LoggerPrograms.LoggerProgram.ClearBuffer | SpaceEngineersPrograms/Programs/LoggerProgram.cs:157 | clearing a buffer empties it and leaves the others |
| LoggerPrograms.LoggerProgram.ClearCommand | SpaceEngineersPrograms/Programs/LoggerProgram.cs:114-130 | `null` arguments fail on the count; no argument removes every buffer; an ID removes that buffer only and says whether it existed |
| LoggerPrograms.LoggerProgram.ReadCommand | SpaceEngineersPrograms/Programs/LoggerProgram.cs:145-151 | `null` arguments throw; otherwise the custom data becomes the application's buffer, or empty, and the result says whether it has one |
| LoggerPrograms.LoggerProgram.ApplicationsCommand | SpaceEngineersPrograms/Programs/LoggerProgram.cs:102-112 | the custom data lists every application ID exactly once, each on its own line, in some order |
| LoggerPrograms.WriteThenRead | SpaceEngineersPrograms/Programs/LoggerProgram.cs:145-171 | writing and then reading an application shows exactly its joined data |
| FileSystemTrees.ParentlessIsRoot | SpaceEngineersPrograms/Programs/OSs/Programs/FileSystemProgram.cs:164-173 | exactly the root has no parent |
| FileSystemTrees.NoEmptyKey | SpaceEngineersPrograms/Programs/OSs/Programs/FileSystemProgram.cs:227-289 | no directory ever files a child under the empty name |
| FileSystemTrees.Step | SpaceEngineersPrograms/Programs/OSs/Programs/FileSystemProgram.cs:73-83 | one accepted part leads to an existing object or to nothing |
| FileSystemTrees.Traverse | SpaceEngineersPrograms/Programs/OSs/Programs/FileSystemProgram.cs:58-90 | the loop offers the parts in order, starting with the first at the starting object; a failed walk has offered at least one part; every offered part comes from the path |
| FileSystemTrees.TraversePath | SpaceEngineersPrograms/Programs/OSs/Programs/FileSystemProgram.cs:41-92 | a `null` path throws `ArgumentNullException` and a path holding a bar throws `ArgumentException`, exactly; otherwise the walk starts by offering a part at the starting object |
| FileSystemTrees.TrimAll | SpaceEngineersPrograms/Programs/OSs/Programs/FileSystemProgram.cs:60 | each part is replaced by its trimmed form, in order |
| FileSystemTrees.TraverseFailsAtLast | SpaceEngineersPrograms/Programs/OSs/Programs/FileSystemProgram.cs:85-88 | a walk that ends in `null` stops at the last part offered, which was accepted and leads nowhere |
| FileSystemTrees.TraverseAppend | SpaceEngineersPrograms/Programs/OSs/Programs/FileSystemProgram.cs:58-90 | with every part accepted and the root flag spent, walking two pieces of a path in turn is walking the whole path |
| FileSystemTrees.Names | SpaceEngineersPrograms/Programs/OSs/Programs/FileSystemProgram.cs:151-155 | the names from the root down are valid names, and there are none exactly at the root |
| FileSystemTrees.NamesPath | SpaceEngineersPrograms/Programs/OSs/Programs/FileSystemProgram.cs:149-156 | the path built below the root is empty only at the root, otherwise starts with `/`, and never holds a bar |
| FileSystemTrees.FullPath | SpaceEngineersPrograms/Programs/OSs/Programs/FileSystemProgram.cs:138-160 | `FullPath` starts with `/`, holds no a bar, and is `/` alone exactly for the root |
| FileSystemTrees.NamesPathJoin | SpaceEngineersPrograms/Programs/OSs/Programs/FileSystemProgram.cs:149-156 | the path below the root is its names joined with `/` behind an empty first part |
| FileSystemTrees.FullPathSplits | SpaceEngineersPrograms/Programs/OSs/Programs/FileSystemProgram.cs:138-160 | below the root, `FullPath` splits at `/` into an empty part and the names from the root down |
| FileSystemTrees.WalkNames | SpaceEngineersPrograms/Programs/OSs/Programs/FileSystemProgram.cs:58-90 | walking the names of an object in the tree from the root leads to it |
| FileSystemTrees.FullPathResolves | SpaceEngineersPrograms/Programs/OSs/Programs/FileSystemProgram.cs:138-194 | from any start, the full path of an object below the root leads back to that object |
| FileSystemTrees.TrimNames | SpaceEngineersPrograms/Programs/OSs/Programs/FileSystemProgram.cs:60 | names and empty parts are their own trimmed forms |
| FileSystemTrees.RootPathDoesNotResolve | SpaceEngineersPrograms/Programs/OSs/Programs/FileSystemProgram.cs:56-90 | the root's own full path `/` does not resolve: its second, empty part is looked up as a child name |
| FileSystemTrees.PathParts | SpaceEngineersPrograms/Programs/OSs/Programs/FileSystemProgram.cs:51-60 | the trimmed parts of a path without a bar hold neither `/` nor a bar and are trimmed |
| FileSystemTrees.PartName | SpaceEngineersPrograms/Programs/OSs/Programs/FileSystemProgram.cs:232-249 | a valid part other than `""`, `.` and `..` is a valid name |
| FileSystemTrees.GrowsKeepsChild | SpaceEngineersPrograms/Programs/OSs/Programs/FileSystemProgram.cs:246 | a child filed before is still filed under the same name after the tree grows |
| FileSystemTrees.GrowsTransitive | SpaceEngineersPrograms/Programs/OSs/Programs/FileSystemProgram.cs:246 | growing twice is growing |
| FileSystemTrees.AddChildFresh | SpaceEngineersPrograms/Programs/OSs/Programs/FileSystemProgram.cs:246 | filing a fresh object with a valid name under a free key of a directory keeps the tree well formed and only adds |
| FileSystemTrees.CallbackState | SpaceEngineersPrograms/Programs/OSs/Programs/FileSystemProgram.cs:227-253 | the callback of `CreateDirectory` keeps the tree well formed, only adds, and adds only directories |
| FileSystemTrees.MakeStep | SpaceEngineersPrograms/Programs/OSs/Programs/FileSystemProgram.cs:58-90 | where the walk of `CreateDirectory` goes after one part, in the state its callback left |
| FileSystemTrees.MakeDirectoriesFresh | SpaceEngineersPrograms/Programs/OSs/Programs/FileSystemProgram.cs:227-253 | the whole walk keeps the tree well formed, only adds directories, and returns a directory if anything |
| FileSystemTrees.CreateDirectory | SpaceEngineersPrograms/Programs/OSs/Programs/FileSystemProgram.cs:227-253 | a `null` path and a path with a bar throw, exactly; otherwise the tree only grows, by directories, and what is returned is a directory |
| FileSystemTrees.MakeDirectoriesCreates | SpaceEngineersPrograms/Programs/OSs/Programs/FileSystemProgram.cs:244-248 | a missing part gets a new directory under the next id and the walk goes on from it |
| FileSystemTrees.MakeDirectoriesChain | SpaceEngineersPrograms/Programs/OSs/Programs/FileSystemProgram.cs:227-253 | names that do not exist yet are made as a chain of new directories, one per name, and the last of them is returned |
| FileSystemTrees.MakeDirectoriesChainWalks | SpaceEngineersPrograms/Programs/OSs/Programs/FileSystemProgram.cs:227-253 | walking those names afterwards leads to what `CreateDirectory` returned |
| FileSystemTrees.MakeDirectoriesSkipsFile | SpaceEngineersPrograms/Programs/OSs/Programs/FileSystemProgram.cs:240-243 | a file in the way is skipped: making `f/n` with `f` a file creates `n` beside the file and returns it, although `f/n` itself leads nowhere |
| FileSystemTrees.FileTarget | SpaceEngineersPrograms/Programs/OSs/Programs/FileSystemProgram.cs:255-289 | where `CreateFile` files its new file: a directory offered a part that is not blank, `.` or `..`, and is free there |
| FileSystemTrees.NewFile | SpaceEngineersPrograms/Programs/OSs/Programs/FileSystemProgram.cs:255-289 | a `null` path and a path with a bar throw, exactly; otherwise either nothing changes or exactly one fresh empty file is added under the next id |
| FileSystemTrees.NewFileName | SpaceEngineersPrograms/Programs/OSs/Programs/FileSystemProgram.cs:258-271 | the part `CreateFile` names its file by comes from the path and is free in its directory |
| FileSystemTrees.FileTargetSpec | SpaceEngineersPrograms/Programs/OSs/Programs/FileSystemProgram.cs:260-287 | a file is made exactly when the walk ends in `null` at a directory offered a part that is not blank, `.` or `..`; it goes there under that part |
| FileSystemTrees.NewFileAtFirstMissing | SpaceEngineersPrograms/Programs/OSs/Programs/FileSystemProgram.cs:255-289 | a missing name at the front of a path becomes the file whatever follows it: `a/b` with no `a` makes a file `a` |
| FileSystemTrees.TwoNamePath | SpaceEngineersPrograms/Programs/OSs/Programs/FileSystemProgram.cs:51-60 | two names joined by `/` hold no a bar and split back into the two names |
| FileSystemTrees.NewFileThenResolve | SpaceEngineersPrograms/Programs/OSs/Programs/FileSystemProgram.cs:255-289 | making a file by its own name in a directory and then looking that name up finds the file |
| FileSystemTrees.UnderTransitive | SpaceEngineersPrograms/Programs/OSs/Programs/FileSystemProgram.cs:218-225 | lying below is transitive |
| FileSystemTrees.UnderChild | SpaceEngineersPrograms/Programs/OSs/Programs/FileSystemProgram.cs:218-225 | below an object lie exactly the object and what lies below each of its children, the recursion of `Clear` |
| FileSystemTrees.ClearedWellFormed | SpaceEngineersPrograms/Programs/OSs/Programs/FileSystemProgram.cs:218-225 | clearing keeps the tree well formed and every object: only contents and children go |
| FileSystemTrees.Removed | SpaceEngineersPrograms/Programs/OSs/Programs/FileSystemProgram.cs:294-302 | clearing the resolved object and unfiling it from its parent keeps the tree well formed and every object |
| FileSystemTrees.UnfileWellFormed | SpaceEngineersPrograms/Programs/OSs/Programs/FileSystemProgram.cs:300 | removing a name from a directory keeps the tree well formed |
| FileSystemTrees.DeletePath | SpaceEngineersPrograms/Programs/OSs/Programs/FileSystemProgram.cs:291-304 | a file deletes nothing; on a directory the path errors of `TraversePath` are thrown, exactly; a path that leads nowhere deletes nothing |
| FileSystemTrees.DeleteSelf | SpaceEngineersPrograms/Programs/OSs/Programs/FileSystemProgram.cs:184 | the root deletes nothing; any deletion keeps the tree well formed and every object |
| FileSystemTrees.DeleteKeepsKinds | SpaceEngineersPrograms/Programs/OSs/Programs/FileSystemProgram.cs:291-304 | deleting keeps the kind of every object |
| FileSystemTrees.DeleteSelfKeepsKinds | SpaceEngineersPrograms/Programs/OSs/Programs/FileSystemProgram.cs:184 | `Delete()` keeps the kind of every object |
| FileSystemTrees.DeleteDetachesSubtree | SpaceEngineersPrograms/Programs/OSs/Programs/FileSystemProgram.cs:291-304 | deleting an attached object answers true, empties everything below it, and takes all of it out of the tree |
| FileSystemTrees.DeleteKeepsOthers | SpaceEngineersPrograms/Programs/OSs/Programs/FileSystemProgram.cs:291-304 | the parent loses just the deleted object's name, and every object outside the deleted subtree other than the parent is as it was |
| FileSystemTrees.DeleteKeepsTree | SpaceEngineersPrograms/Programs/OSs/Programs/FileSystemProgram.cs:291-304 | what was in the tree and not below the deleted object is still in the tree |
| FileSystemTrees.DeleteEmptyPathClearsRoot | SpaceEngineersPrograms/Programs/OSs/Programs/FileSystemProgram.cs:291-304 | `Delete("")` on a directory resolves to the root, clears the whole tree and answers false |
| FileSystemTrees.DeleteSelfAttached | SpaceEngineersPrograms/Programs/OSs/Programs/FileSystemProgram.cs:184 | `Delete()` on an object filed in its parent removes exactly that object |
| FileSystemTrees.DeleteSelfDetached | SpaceEngineersPrograms/Programs/OSs/Programs/FileSystemProgram.cs:184 | `Delete()` on an object no longer filed in its parent deletes whatever the parent now files under its name, or nothing |
| FileSystemTrees.SingleName | SpaceEngineersPrograms/Programs/OSs/Programs/FileSystemProgram.cs:51-60 | a single name is a path of one part, walked without going to the root |
| FileSystemTrees.Resolve | SpaceEngineersPrograms/Programs/OSs/Programs/FileSystemProgram.cs:194 | `GetRelativeFileSystemObject` throws the errors of `TraversePath`, exactly, and otherwise finds an existing object or nothing |
| FileSystemTrees.DoesExist | SpaceEngineersPrograms/Programs/OSs/Programs/FileSystemProgram.cs:188-192 | `DoesPathExist`, `DoesDirectoryExist` and `DoesFileExist` throw exactly for a `null` path or one with a bar |
| FileSystemTrees.ExistsKinds | SpaceEngineersPrograms/Programs/OSs/Programs/FileSystemProgram.cs:188-192 | a path exists exactly when a directory or a file exists there, never both |
| FileSystemTrees.FullPathExists | SpaceEngineersPrograms/Programs/OSs/Programs/FileSystemProgram.cs:138-194 | from anywhere, the full path of an object below the root exists and has the object's kind |
| FileSystemTrees.Suffix | SpaceEngineersPrograms/Programs/OSs/Programs/FileSystemProgram.cs:351 | `Read(startIndex)`: the tail from the index, of the remaining length, or empty when the index is not below the length |
| FileSystemTrees.Substring | SpaceEngineersPrograms/Programs/OSs/Programs/FileSystemProgram.cs:353 | `Read(startIndex, length)`: exactly `length` characters when that many follow the index, otherwise empty; always a beginning of the tail |
| FileSystemTrees.Read | SpaceEngineersPrograms/Programs/OSs/Programs/FileSystemProgram.cs:349 | a file reads as its content, and a directory as the empty text (its override at line 306); `AppendThenRead` and `WriteContent` state what a read gives back |
| FileSystemTrees.SetContentWellFormed | SpaceEngineersPrograms/Programs/OSs/Programs/FileSystemProgram.cs:355-362 | replacing a content keeps the tree well formed and every object |
| FileSystemTrees.WriteContent | SpaceEngineersPrograms/Programs/OSs/Programs/FileSystemProgram.cs:355-362 | a directory writes nothing and answers false; a file throws exactly for `null` and otherwise takes the text; no other object changes |
| FileSystemTrees.AppendContent | SpaceEngineersPrograms/Programs/OSs/Programs/FileSystemProgram.cs:328-336 | as `Write`, but the file's content grows by the text |
| FileSystemTrees.AppendThenRead | SpaceEngineersPrograms/Programs/OSs/Programs/FileSystemProgram.cs:328-353 | reading an appended file from its old length gives back exactly what was appended |
| FileSystemSaves.Paths | SpaceEngineersPrograms/Programs/OSs/Programs/FileSystemProgram.cs:980-984 | one path per file entry, in order |
| FileSystemSaves.StringBytes | SpaceEngineersPrograms/Core/StorageDataSerializer.cs:230-239 | `WriteString` writes four length bytes and then the bytes of the string |
| FileSystemSaves.DirectoriesBytesSnoc | SpaceEngineersPrograms/Programs/OSs/Programs/FileSystemProgram.cs:976-979 | one more directory path adds its string at the end of the written bytes |
| FileSystemSaves.FilesBytesSnoc | SpaceEngineersPrograms/Programs/OSs/Programs/FileSystemProgram.cs:980-984 | one more file entry adds its path and then its content at the end |
| FileSystemSaves.DirectoriesBytesAppend | SpaceEngineersPrograms/Programs/OSs/Programs/FileSystemProgram.cs:976-979 | the directory paths of two runs are written one after the other |
| FileSystemSaves.FilesBytesAppend | SpaceEngineersPrograms/Programs/OSs/Programs/FileSystemProgram.cs:980-984 | the file entries of two runs are written one after the other |
| FileSystemSaves.StringAt | SpaceEngineersPrograms/Core/StorageDataSerializer.cs:184-188 | a string read at a position is the byte count after its length prefix, and ends within the data |
| FileSystemSaves.ReadDirectories | SpaceEngineersPrograms/Programs/OSs/Programs/FileSystemProgram.cs:405-413 | the directory loop ends within the data when it succeeds |
| FileSystemSaves.ReadFiles | SpaceEngineersPrograms/Programs/OSs/Programs/FileSystemProgram.cs:414-427 | the file loop ends within the data when it succeeds |
| FileSystemSaves.ParseSave | SpaceEngineersPrograms/Programs/OSs/Programs/FileSystemProgram.cs:397-427 | fewer than four bytes throw the position exception; a first `Int32` other than the magic `0x53464553` reads nothing more |
| FileSystemSaves.StringAtBytes | SpaceEngineersPrograms/Core/StorageDataSerializer.cs:184-239 | a string written at a position reads back as its bytes, ending right after them |
| FileSystemSaves.ReadWrittenDirectories | SpaceEngineersPrograms/Programs/OSs/Programs/FileSystemProgram.cs:405-413 | written directory paths that repeat neither each other nor one seen before read back in order, ending right after them |
| FileSystemSaves.ReadDirectoriesStep | SpaceEngineersPrograms/Programs/OSs/Programs/FileSystemProgram.cs:407-411 | one round of the directory loop that reads a new path adds it and goes on after it |
| FileSystemSaves.ReadWrittenFiles | SpaceEngineersPrograms/Programs/OSs/Programs/FileSystemProgram.cs:414-427 | written file entries whose paths repeat neither each other nor one seen before read back in order, ending right after them |
| FileSystemSaves.FileEntryLayout | SpaceEngineersPrograms/Programs/OSs/Programs/FileSystemProgram.cs:980-984 | the entries after the first written file entry lie right after it |
| FileSystemSaves.FileEntryStep | SpaceEngineersPrograms/Programs/OSs/Programs/FileSystemProgram.cs:416-424 | the first written file entry reads back as itself and the loop goes on after it |
| FileSystemSaves.FileEntryAt | SpaceEngineersPrograms/Programs/OSs/Programs/FileSystemProgram.cs:416-417 | a file entry written at a position reads back as its path and its content, and what follows comes after them |
| FileSystemSaves.ReadFilesStep | SpaceEngineersPrograms/Programs/OSs/Programs/FileSystemProgram.cs:416-424 | one round of the file loop that reads a new path adds the entry and goes on after it |
| FileSystemSaves.SaveParses | SpaceEngineersPrograms/Programs/OSs/Programs/FileSystemProgram.cs:397-427 | the save round trip: what `Save` writes reads back entry for entry and in order, when decoding undoes encoding and no path is written twice |
| FileSystemSaves.LaidOutParses | SpaceEngineersPrograms/Programs/OSs/Programs/FileSystemProgram.cs:397-427 | data laid out as a save, whatever follows it, reads as the saved entries |
| FileSystemSaves.ReadAllDirectories | SpaceEngineersPrograms/Programs/OSs/Programs/FileSystemProgram.cs:402-413 | the directory loop, starting empty, reads back distinct written paths |
| FileSystemSaves.ReadAllFiles | SpaceEngineersPrograms/Programs/OSs/Programs/FileSystemProgram.cs:403-427 | the file loop, starting empty, reads back written entries with distinct paths |
| FileSystemSaves.ParsePhases | SpaceEngineersPrograms/Programs/OSs/Programs/FileSystemProgram.cs:397-427 | the reading phase succeeds with what its two loops read |
| FileSystemSaves.SaveLayout | SpaceEngineersPrograms/Programs/OSs/Programs/FileSystemProgram.cs:967-986 | the header's three numbers read back as the magic and the two counts, and the two lists follow the header |
| FileSystemSaves.FirstRepeatFrom | SpaceEngineersPrograms/Programs/OSs/Programs/FileSystemProgram.cs:408-411 | the first element repeating an earlier one, searching from a position on, with everything before it distinct |
| FileSystemSaves.FirstRepeat | SpaceEngineersPrograms/Programs/OSs/Programs/FileSystemProgram.cs:408-411 | the first element of a list that repeats an earlier one, with everything before it distinct |
| FileSystemSaves.DirectoryEntryLayout | SpaceEngineersPrograms/Programs/OSs/Programs/FileSystemProgram.cs:976-979 | the first written directory path reads back as its bytes, and the rest lie right after it |
| FileSystemSaves.RepeatedDirectoryRejected | SpaceEngineersPrograms/Programs/OSs/Programs/FileSystemProgram.cs:405-413 | when the `j`-th written directory path repeats one before it, the directory loop throws the duplicate-entry exception for that path |
| FileSystemSaves.DirectoriesFailParse | SpaceEngineersPrograms/Programs/OSs/Programs/FileSystemProgram.cs:397-413 | the reading phase throws what the directory loop throws |
| FileSystemSaves.SaveWithRepeatedDirectoryFails | SpaceEngineersPrograms/Programs/OSs/Programs/FileSystemProgram.cs:405-413 | a save listing a directory path twice does not load: reading throws the duplicate-entry exception for the first repeat |
| FileSystemSaves.ReadFilesDuplicate | SpaceEngineersPrograms/Programs/OSs/Programs/FileSystemProgram.cs:416-421 | a file entry whose path was seen before makes the loop throw, once both strings of the entry are read |
| FileSystemSaves.FirstFileRepeated | SpaceEngineersPrograms/Programs/OSs/Programs/FileSystemProgram.cs:416-421 | written file entries whose first path was seen before make the file loop throw for that path |
| FileSystemSaves.RepeatedFileRejected | SpaceEngineersPrograms/Programs/OSs/Programs/FileSystemProgram.cs:414-427 | when the `j`-th written file path repeats one before it, the file loop throws the duplicate-entry exception for that path |
| FileSystemSaves.FilesFailParse | SpaceEngineersPrograms/Programs/OSs/Programs/FileSystemProgram.cs:397-427 | once the directories are read, the reading phase throws what the file loop throws |
| FileSystemSaves.SaveWithRepeatedFileFails | SpaceEngineersPrograms/Programs/OSs/Programs/FileSystemProgram.cs:414-427 | a save listing a file path twice, with distinct directories, does not load: reading throws the duplicate-entry exception for the first repeated file path |
| FileSystemPrograms.EmptyTreeFresh | SpaceEngineersPrograms/Programs/OSs/Programs/FileSystemProgram.cs:394 | the new root alone is a well-formed tree |
| FileSystemPrograms.BuildDirectoriesFresh | SpaceEngineersPrograms/Programs/OSs/Programs/FileSystemProgram.cs:428-435 | building the read directories keeps the tree well formed and only adds |
| FileSystemPrograms.BuildFilesFresh | SpaceEngineersPrograms/Programs/OSs/Programs/FileSystemProgram.cs:436-447 | building the read files keeps the tree well formed, and what was there keeps its id |
| FileSystemPrograms.Caught | SpaceEngineersPrograms/Programs/OSs/Programs/FileSystemProgram.cs:450-453 | the `catch`: the exception is recorded and the root's `Clear` leaves it without children |
| FileSystemPrograms.Rebuild | SpaceEngineersPrograms/Programs/OSs/Programs/FileSystemProgram.cs:428-447 | the building half of the loader leaves a well-formed tree |
| FileSystemPrograms.Load | SpaceEngineersPrograms/Programs/OSs/Programs/FileSystemProgram.cs:388-457 | the loader always leaves a well-formed tree; a missing or invalid storage string fails, and any failure leaves the root without children |
| FileSystemPrograms.ReadStringAt | SpaceEngineersPrograms/Core/StorageDataSerializer.cs:184-188 | `ReadString` reads the string at the position and moves past it, or throws when the data ends first |
| FileSystemPrograms.ReadDirectoryPaths | SpaceEngineersPrograms/Programs/OSs/Programs/FileSystemProgram.cs:402-413 | the directory reading loop computes what the specification of the directory loop reads, and the position after it |
| FileSystemPrograms.ReadFileEntry | SpaceEngineersPrograms/Programs/OSs/Programs/FileSystemProgram.cs:416-424 | one round of the file loop reads a path and a content and refuses a path already held |
| FileSystemPrograms.ReadFileEntries | SpaceEngineersPrograms/Programs/OSs/Programs/FileSystemProgram.cs:403-427 | the file reading loop computes what the specification of the file loop reads |
| FileSystemPrograms.ReadSave | SpaceEngineersPrograms/Programs/OSs/Programs/FileSystemProgram.cs:397-427 | the reading half of the loader computes the parsed save |
| FileSystemPrograms.CreateDirectories | SpaceEngineersPrograms/Programs/OSs/Programs/FileSystemProgram.cs:428-435 | the first building loop makes each read directory from the root and stops at a path that throws or gives `null` |
| FileSystemPrograms.CreateFiles | SpaceEngineersPrograms/Programs/OSs/Programs/FileSystemProgram.cs:436-447 | the second building loop makes each read file from the root, writes its content, and stops at the first failure |
| FileSystemPrograms.LoadTree | SpaceEngineersPrograms/Programs/OSs/Programs/FileSystemProgram.cs:388-457 | the loader's body computes the specified load |
| FileSystemPrograms.NothingUnderEmptyRoot | SpaceEngineersPrograms/Programs/OSs/Programs/FileSystemProgram.cs:450-453 | a root without children has nothing below it |
| FileSystemPrograms.FailedLoadIsEmpty | SpaceEngineersPrograms/Programs/OSs/Programs/FileSystemProgram.cs:450-453 | a failed load leaves a tree holding the root alone |
| FileSystemPrograms.UnmarkedStorageLoadsEmpty | SpaceEngineersPrograms/Programs/OSs/Programs/FileSystemProgram.cs:398 | a valid storage string whose first `Int32` is not the magic loads as a new root, without failure |
| FileSystemPrograms.SaveThenLoad | SpaceEngineersPrograms/Programs/OSs/Programs/FileSystemProgram.cs:388-457 | loading what `Save` stored rebuilds exactly the saved entries, in their order |
| FileSystemPrograms.LoadParsed | SpaceEngineersPrograms/Programs/OSs/Programs/FileSystemProgram.cs:388-457 | a valid storage string whose save reads as given entries loads as their rebuild |
| FileSystemPrograms.NextOf | SpaceEngineersPrograms/Programs/OSs/Programs/FileSystemProgram.cs:61-83 | one offered part leads to an existing object or to nothing |
| FileSystemPrograms.TraverseFirst | SpaceEngineersPrograms/Programs/OSs/Programs/FileSystemProgram.cs:58-90 | a walk from a part on is the move on that part followed by the walk over the parts after it |
| FileSystemPrograms.Advance | SpaceEngineersPrograms/Programs/OSs/Programs/FileSystemProgram.cs:63-83 | one accepted part moves to the root when the flag is set, otherwise by `.`, `..` or a child's name |
| FileSystemPrograms.Round | SpaceEngineersPrograms/Programs/OSs/Programs/FileSystemProgram.cs:58-90 | one round of the loop keeps the walk's result unchanged from where it goes |
| FileSystemPrograms.TraverseParts | SpaceEngineersPrograms/Programs/OSs/Programs/FileSystemProgram.cs:58-90 | the loop over the trimmed pieces ends where the specified walk ends |
| FileSystemPrograms.FollowPath | SpaceEngineersPrograms/Programs/OSs/Programs/FileSystemProgram.cs:41-92 | `TraversePath` gives the specified target and the specified errors |
| FileSystemPrograms.BuildFullPath | SpaceEngineersPrograms/Programs/OSs/Programs/FileSystemProgram.cs:138-160 | the `FullPath` loop builds exactly the full path |
| FileSystemPrograms.UnescapeText | SpaceEngineersPrograms/Programs/OSs/Programs/FileSystemProgram.cs:840-848 | `UnescapeText` applies the escape table in order |
| FileSystemPrograms.GetContentArgument | SpaceEngineersPrograms/Programs/OSs/Programs/FileSystemProgram.cs:850-867 | the arguments after the path, each unescaped, joined by a bar |
| FileSystemPrograms.NamesPathInjective | SpaceEngineersPrograms/Programs/OSs/Programs/FileSystemProgram.cs:138-160 | two objects of the tree with the same chain of names are the same object |
| FileSystemPrograms.FullPathsDiffer | SpaceEngineersPrograms/Programs/OSs/Programs/FileSystemProgram.cs:138-160 | different objects of the tree have different full paths |
| FileSystemPrograms.PathNotCollected | SpaceEngineersPrograms/Programs/OSs/Programs/FileSystemProgram.cs:951-965 | an object the walk does not visit contributes no collected path |
| FileSystemPrograms.CollectedDistinct | SpaceEngineersPrograms/Programs/OSs/Programs/FileSystemProgram.cs:951-965 | no directory path and no file path is collected twice, so neither the `HashSet` nor `Dictionary.Add` meets a repeat |
| FileSystemPrograms.CollectedHolds | SpaceEngineersPrograms/Programs/OSs/Programs/FileSystemProgram.cs:951-965 | each visited directory's path and each visited file's path and content are collected |
| FileSystemPrograms.TreeCollected | SpaceEngineersPrograms/Programs/OSs/Programs/FileSystemProgram.cs:951-965 | every directory and file of the tree is collected with its full path, and a file with its content |
| FileSystemPrograms.DirectoriesPrefix | SpaceEngineersPrograms/Programs/OSs/Programs/FileSystemProgram.cs:976-979 | the directory paths written so far are those before, then one more string |
| FileSystemPrograms.FilesPrefix | SpaceEngineersPrograms/Programs/OSs/Programs/FileSystemProgram.cs:980-984 | the file entries written so far are those before, then one more path and content |
| FileSystemPrograms.WriteDirectories | SpaceEngineersPrograms/Programs/OSs/Programs/FileSystemProgram.cs:976-979 | the loop appends exactly the written directory paths |
| FileSystemPrograms.WriteFile | SpaceEngineersPrograms/Programs/OSs/Programs/FileSystemProgram.cs:982-983 | one round appends the path and then the content |
| FileSystemPrograms.WriteFiles | SpaceEngineersPrograms/Programs/OSs/Programs/FileSystemProgram.cs:980-984 | the loop appends exactly the written file entries |
| FileSystemPrograms.SaveEntries | SpaceEngineersPrograms/Programs/OSs/Programs/FileSystemProgram.cs:967-986 | the storage string is the hex encoding of the magic, the two counts and the two lists |
| FileSystemPrograms.SaveTree | SpaceEngineersPrograms/Programs/OSs/Programs/FileSystemProgram.cs:967-986 | `Save` stores the hex encoding of the entries collected from the tree |
| FileSystemPrograms.SavedTreeLoads | SpaceEngineersPrograms/Programs/OSs/Programs/FileSystemProgram.cs:388-986 | what `Save` stores for a tree loads as the rebuild of the collected entries |
| FileSystemPrograms.FileSystemProgram.constructor | SpaceEngineersPrograms/Programs/OSs/Programs/FileSystemProgram.cs:388-472 | the program holds the tree its loader leaves and starts at the root |
| FileSystemPrograms.FileSystemProgram.SetCurrentDirectory | SpaceEngineersPrograms/Programs/OSs/Programs/FileSystemProgram.cs:469-472 | `null` selects the root, any other directory becomes current |
| FileSystemPrograms.FileSystemProgram.GetRelativeFileSystemObject | SpaceEngineersPrograms/Programs/OSs/Programs/FileSystemProgram.cs:194 | the specified walk with every part accepted |
| FileSystemPrograms.FileSystemProgram.GetFullPath | SpaceEngineersPrograms/Programs/OSs/Programs/FileSystemProgram.cs:138-160 | the full path of the object |
| FileSystemPrograms.FileSystemProgram.CreateDirectory | SpaceEngineersPrograms/Programs/OSs/Programs/FileSystemProgram.cs:227-253 | the tree becomes what the specification of `CreateDirectory` makes |
| FileSystemPrograms.FileSystemProgram.CreateFile | SpaceEngineersPrograms/Programs/OSs/Programs/FileSystemProgram.cs:255-289 | the tree becomes what the specification of `CreateFile` makes |
| FileSystemPrograms.FileSystemProgram.Clear | SpaceEngineersPrograms/Programs/OSs/Programs/FileSystemProgram.cs:218-225 | the object and everything below it are emptied |
| FileSystemPrograms.FileSystemProgram.Delete | SpaceEngineersPrograms/Programs/OSs/Programs/FileSystemProgram.cs:291-304 | the tree becomes what the specification of `Delete(path)` leaves |
| FileSystemPrograms.FileSystemProgram.DeleteSelf | SpaceEngineersPrograms/Programs/OSs/Programs/FileSystemProgram.cs:184 | the tree becomes what the specification of `Delete()` leaves |
| FileSystemPrograms.FileSystemProgram.Write | SpaceEngineersPrograms/Programs/OSs/Programs/FileSystemProgram.cs:355-362 | the tree becomes what the specification of `Write` leaves |
| FileSystemPrograms.FileSystemProgram.Append | SpaceEngineersPrograms/Programs/OSs/Programs/FileSystemProgram.cs:328-336 | the tree becomes what the specification of `Append` leaves |
| FileSystemPrograms.FileSystemProgram.Save | SpaceEngineersPrograms/Programs/OSs/Programs/FileSystemProgram.cs:967-986 | the storage string becomes the hex encoding of the collected entries |
| FileSystemClients.FirstNamed | SpaceEngineersPrograms/Core/EFileSystemStatusCode.cs:3-56 | the first candidate carrying the name, or none when no candidate does |
| FileSystemClients.ParseStatus | SpaceEngineersPrograms/Core/FileSystem.cs:102 | `Enum.TryParse` on a member name gives the status of exactly that name, if any |
| FileSystemClients.ParseStatusName | SpaceEngineersPrograms/Core/FileSystem.cs:102 | parsing any status's name gives that status back |
| FileSystemClients.SendCommand | SpaceEngineersPrograms/Core/FileSystem.cs:88-109 | no reply means `UnknownError` and an empty result; otherwise the result is the reply, and the status is the one it names, or `CustomData` when it names none |
| FileSystemClients.SendCommandReports | SpaceEngineersPrograms/Core/FileSystem.cs:88-109 | a status other than `CustomData` and `UnknownError` is reported exactly when the reply is its name |
| FileSystemClients.TableShape | SpaceEngineersPrograms/Core/FileSystem.cs:9-21 | the first seven keys of the table are control characters and no replacement holds one |
| FileSystemClients.EscapePrefixNoControl | SpaceEngineersPrograms/Core/FileSystem.cs:111-119 | after the first `n` replacements none of the control characters among the first `n` keys is left |
| FileSystemClients.EscapedHasNoControl | SpaceEngineersPrograms/Core/FileSystem.cs:111-119 | escaped text holds none of the seven control characters |
| FileSystemClients.EscapePrefixPlain | SpaceEngineersPrograms/Core/FileSystem.cs:111-119 | text without any key passes every replacement unchanged |
| FileSystemClients.EscapedPlain | SpaceEngineersPrograms/Core/FileSystem.cs:111-119 | text without any key is sent as it is |
| FileSystemClients.PlainTextSurvives | SpaceEngineersPrograms/Core/FileSystem.cs:111-119 | such text also comes out of the file-system program's unescaping as it went in |
| FileSystemClients.EscapeText | SpaceEngineersPrograms/Core/FileSystem.cs:111-119 | the loop applies the table's replacements in order |
| FileSystemClients.ContainsControlCharacters | SpaceEngineersPrograms/Core/FileSystem.cs:121-133 | the loop answers true exactly when the text holds one of the table's keys |
| FileSystemClients.CheckPath | SpaceEngineersPrograms/Core/FileSystem.cs:137-144 | a `null` path throws `ArgumentNullException`, a path holding a key throws `ArgumentException`, and exactly the other paths pass |
| FileSystemClients.PathRequest | SpaceEngineersPrograms/Core/FileSystem.cs:153-249 | a refused path throws and sends nothing; otherwise the answer is whether the block answered `keyword`, a bar and the path with the operation's success status |
| FileSystemClients.DataRequest | SpaceEngineersPrograms/Core/FileSystem.cs:135-151 | the path checks, then missing data throws `ArgumentNullException`, then the answer is whether the request with the escaped data got the success status |
| FileSystemClients.RefusedRequestsSendNothing | SpaceEngineersPrograms/Core/FileSystem.cs:137-147 | a request that fails its checks does not depend on the block |
| FileSystemClients.DataReply | SpaceEngineersPrograms/Core/FileSystem.cs:45-55 | a nonempty data reply is the block's reply |
| FileSystemClients.ReadFile | SpaceEngineersPrograms/Core/FileSystem.cs:289-305 | the path checks, then the reply to the read request when it is data, else the empty text |
| FileSystemClients.DataReplyIsNotStatus | SpaceEngineersPrograms/Core/FileSystem.cs:300-303 | a reply naming a status other than `CustomData` gives the empty text |
| FileSystemClients.ListEntries | SpaceEngineersPrograms/Core/FileSystem.cs:257-261 | one entry per piece of the reply split on line feeds, each trimmed |
| FileSystemClients.List | SpaceEngineersPrograms/Core/FileSystem.cs:251-287 | `List()` and `List(path)`: a refused path throws; otherwise the trimmed entries when the reply is data, none when it is not |
| FileSystemServers.Clamp | SpaceEngineersPrograms/Programs/FileSystemServer.cs:44-47 | the `Position` setter keeps a value inside the data and clamps one below to 0 and one above to the length |
| FileSystemServers.CanReadAsWrittenOnlyAtStart | SpaceEngineersPrograms/Programs/FileSystemServer.cs:101 | as written, `CanRead` holds only at position 0, whatever the length asked for |
| FileSystemServers.CanReadAsWritten | SpaceEngineersPrograms/Programs/FileSystemServer.cs:101 | `CanRead` as written: a positive length, and `position + Length <= Length` in 32-bit arithmetic; the two lemmas after it state what that admits |
| FileSystemServers.CanNotReadMessage | SpaceEngineersPrograms/Programs/FileSystemServer.cs:21 | the reader's exception message: "Can not read", the length, "bytes from position", the position and a full stop |
| FileSystemServers.CanReadAsWrittenCounterexample | SpaceEngineersPrograms/Programs/FileSystemServer.cs:101 | a one-byte read at position 1 of four bytes is refused, and a ten-byte read at position 0 of four bytes is allowed |
| FileSystemServers.CanOpen | SpaceEngineersPrograms/Programs/FileSystemServer.cs:101 | the intended check: a positive length that fits in the bytes after the position |
| FileSystemServers.StorageReader.Empty | SpaceEngineersPrograms/Programs/FileSystemServer.cs:56-59 | a new reader holds no bytes, at position 0 |
| FileSystemServers.StorageReader.FromBytes | SpaceEngineersPrograms/Programs/FileSystemServer.cs:69-75 | a reader on a copy of the bytes, or on none for `null`, at position 0 |
| FileSystemServers.StorageReader.FromReader | SpaceEngineersPrograms/Programs/FileSystemServer.cs:61-67 | a reader on a copy of the other reader's bytes, at position 0 |
| FileSystemServers.StorageReader.IsAtEnd | SpaceEngineersPrograms/Programs/FileSystemServer.cs:52 | at the end exactly when the position is the length |
| FileSystemServers.StorageReader.SetPosition | SpaceEngineersPrograms/Programs/FileSystemServer.cs:38-48 | the new position is the clamped value |
| FileSystemServers.StorageReader.Seek | SpaceEngineersPrograms/Programs/FileSystemServer.cs:85-99 | from the start, from the position or back from the end, in 32-bit arithmetic, then clamped |
| FileSystemServers.StorageReader.CanRead | SpaceEngineersPrograms/Programs/FileSystemServer.cs:101 | as written: a positive length at position 0, or at a position whose sum with the data length leaves the 32-bit range; the length asked for plays no other part |
| FileSystemServers.StorageReader.Validate | SpaceEngineersPrograms/Programs/FileSystemServer.cs:103-111 | the answer of `CanRead` as written, or the exception naming the position and length exactly when that answer is no and throwing is wanted |
| FileSystemServers.StorageReader.ReadBytes | SpaceEngineersPrograms/Programs/FileSystemServer.cs:113-122 | a refused read throws the reader's exception, or quietly gives an empty array; an allowed read past the end throws `Array.Copy`'s `ArgumentException`; otherwise a fresh copy of the bytes at the position; the position does not move |
| FileSystemServers.StorageReader.ReadByte | SpaceEngineersPrograms/Programs/FileSystemServer.cs:124-133 | the byte at the position, moving past it; a refused read throws without a default and gives the default with one; an allowed read at the end of the data throws `IndexOutOfRangeException` |
| FileSystemServers.CloneBytes | SpaceEngineersPrograms/Programs/FileSystemServer.cs:65 | `Clone` gives a fresh array with the same bytes |
| FileSystemServers.NewUser | SpaceEngineersPrograms/Programs/FileSystemServer.cs:367-371 | a missing user name or password becomes empty, others are kept |
| FileSystemServers.NewFile | SpaceEngineersPrograms/Programs/FileSystemServer.cs:346-353 | a missing path or owner becomes empty; missing data throws `ArgumentNullException`, exactly |
| FileSystemServers.ListIffReadOrWrite | SpaceEngineersPrograms/Programs/FileSystemServer.cs:355-359 | a user may list a file exactly when they may read or write it |
| FileSystemServers.OwnerAndOthers | SpaceEngineersPrograms/Programs/FileSystemServer.cs:355-359 | the owner may do everything; anybody else, and nobody signed in, only what the flags open |
| FileSystemServers.File.CanList | SpaceEngineersPrograms/Programs/FileSystemServer.cs:355 | listing is open when everyone may read or write, otherwise reserved to the signed-in owner |
| FileSystemServers.File.CanRead | SpaceEngineersPrograms/Programs/FileSystemServer.cs:357 | reading is open when everyone may read, otherwise reserved to the signed-in owner |
| FileSystemServers.File.CanWrite | SpaceEngineersPrograms/Programs/FileSystemServer.cs:359 | writing is open when everyone may write, otherwise reserved to the signed-in owner |
| FileSystemServers.EncodeFlags | SpaceEngineersPrograms/Programs/FileSystemServer.cs:755 | the saver's flag byte: bit 1 for everyone-read and bit 2 for everyone-write; `FlagsRoundTrip` states what it keeps |
| FileSystemServers.DecodeFlags | SpaceEngineersPrograms/Programs/FileSystemServer.cs:429-431 | the loader reads each flag from its own bit; `FlagsRoundTrip` and `DecodeIgnoresOtherBits` state what it keeps |
| FileSystemServers.FlagsRoundTrip | SpaceEngineersPrograms/Programs/FileSystemServer.cs:429-431 | loading a saved flag byte gives back both flags, and the byte holds no other bit |
| FileSystemServers.DecodeIgnoresOtherBits | SpaceEngineersPrograms/Programs/FileSystemServer.cs:429-431 | the loader ignores every bit but the two flag bits |
| SpritesPreviewers.MovesAreModular | SpaceEngineersPrograms/Programs/SpritesPreviewers.cs:99-114 | both moves stay on the ring: left is the decrement and right the increment modulo the count |
| SpritesPreviewers.MovesAreInverse | SpaceEngineersPrograms/Programs/SpritesPreviewers.cs:99-114 | a move to the right undoes a move to the left, and the other way round |
| SpritesPreviewers.SpritesPreviewer.constructor | SpaceEngineersPrograms/Programs/SpritesPreviewers.cs:62-76 | copies the given names, none for `null`, and starts at the first |
| SpritesPreviewers.SpritesPreviewer.SelectedSprite | SpaceEngineersPrograms/Programs/SpritesPreviewers.cs:47-58 | no sprite exactly when the list is empty, otherwise one of the list |
| SpritesPreviewers.SpritesPreviewer.SetSelectedSpritesIndex | SpaceEngineersPrograms/Programs/SpritesPreviewers.cs:32-45 | the new index is the value modulo the count, and an empty list ignores it |
| SpritesPreviewers.MoveLeft | SpaceEngineersPrograms/Programs/SpritesPreviewers.cs:99-109 | from the first sprite to the last, otherwise one back |
| SpritesPreviewers.MoveRight | SpaceEngineersPrograms/Programs/SpritesPreviewers.cs:111-114 | the `uint` increment, wrapping at 2^32, reduced by the setter |
| SpritesPreviewers.MoveLeftThenRight | SpaceEngineersPrograms/Programs/SpritesPreviewers.cs:99-114 | moving right after moving left brings the cursor back |

## Left out

- Game plumbing: `Main`, `Save`, `Echo`, block queries, `TryRun`, inter-grid messaging and text surfaces are the game's API. The client's file-system block is a function `Block` from request to reply. Its discovery in `InitFileSystem` is not modelled.
- `FileSystemProgram` command handlers and `Main`, the logger's help command, and the `FileSystemServer` command handlers: they are string dispatch around the operations that are modelled.
- `FileSystemServer`'s `StorageBuilder` (its `Add(string)` calls itself forever), `ReadSingle`/`ReadDouble` and `BitConverter`: these are floating point or foreign conversions.
- UTF-8 encoding and decoding of saved strings: these are parameters (`utf8`, `decode`). The save round trip is proved for any decoder that inverts the encoder.
- Numeric, `DateTime`, `decimal`, `bool` and `char` conversions in `JsonPrimitive.GetValue`: these are a parameter `parse`. Only the string path and the unsupported-type error are modelled exactly.
- The `ReadOnly` flag of `JSON` is stored but never read, so it is not modelled.
- Object identity in the JSON tree: children are values, so one element added to two containers is two copies. `JsonElements.JsonList.Contains` and `JsonElements.JsonList.Remove` therefore compare items structurally, while the C# `List<JsonElement>` compares references (`JsonElement` does not override `Equals`), so removing an equal copy succeeds in the model and fails in C#.
- `JsonList` enumerators and `CopyTo`: they expose the stored sequence, which the model keeps as `values`.
- Dictionary and hash-set enumeration order: the order of an object's members, of the help listing and of the objects `Save` visits is a parameter or the recorded insertion order. It is never assumed to be .NET's order.
- `Sorting.OrdinalLessEq`: the help topic is sorted with `string.CompareTo`, which is culture-aware. The model orders strings by character code.
- `Text.ToLower`: culture-aware lowering of all of Unicode becomes ASCII lowering.
- `FileSystemPrograms.FileSystemProgram.constructor`: the root directory is loaded lazily on first use. The model loads it in the constructor, which is the same state once anything is used.
- `FileSystemPrograms.Load`: the write failure in the loader's rebuilding phase cannot happen, because the tree was just emptied, and it is not modelled.
- `FileSystemPrograms.SavedTreeLoads`: it proves that loading a save rebuilds the saved entries (`Rebuild`). It does not prove the rebuilt tree isomorphic to the saved one.
- `FileSystemPrograms.FileSystemProgram.Save`: it requires fewer than 2^31 entries and fewer than 2^32 bytes of storage. The C# counts are `Int32`, and no block storage reaches these sizes.
- `FileSystemPrograms.TraverseParts`: a `null` start object is outside the model. Every caller passes the root or the current directory.
- The `FilesDirectoryPath` setting: it is only a TODO in the source.
- EngineersOS `AppsDirectoryFileSystemObject`: its renaming and its children rebuilt from grid blocks are not modelled, so the `apps` directory stays empty. Running an app is a parameter `run`.
- EngineersOS `ListCommand` output, `Console.Update`/`Print`/`Clear` and the `Input` class: these are terminal and text-surface I/O.
- The SpritesPreviewer's `ZoomIn`/`ZoomOut` and drawing: these are floating point and UI.
- `SpritesPreviewers.SpritesPreviewer.SelectedSprite`: for a non-empty list it states only that the sprite is one of the list. The sprite's place is stated by `SetSelectedSpritesIndex` and the moves.
- `Command.Equals` and `GetHashCode` compare commands by name: they are not members of their own, because the registry keys its `commands` set and its `commandLookup` map by name, which is all the code uses them for.
- `FileSystemServers.StorageReader`: the constructor from a Base64 string and the `Base64` property go through `Convert`, a foreign byte conversion like `BitConverter`, and are not modelled.
- `JsonParser.Json.constructor`: the C# constructor also accepts a `null` text or a `null` pause predicate, after which the first `ParsingComplete` throws `NullReferenceException`; the model's text and predicate are never null, so that failure is not modelled.
- The getter and setter of the client's `CurrentDirectory`: the getter is a plain function without a contract, and the setter only sends a request as `PathRequest` does.
- `Enum.TryParse` in the client's `SendCommand`: it accepts more spellings than the status names (numbers, for example). The model matches the names exactly.

## Findings

| source | as written | input that shows it | evidently intended | confidence | as-written member | corrected member |
|---|---|---|---|---|---|---|
| SpaceEngineersPrograms/Core/StorageDataSerializer.cs:241-245 | `Clear` empties the data and resets the position but keeps the cached storage string | a buffer built from `"00"`, then `Clear`: `StorageString` still reads `"00"` | the cache is dropped so that the storage string of an empty buffer is `""` | high, not executed | StorageSerializer.CacheSurvivesClear | StorageSerializer.StorageDataSerializer.ClearAndInvalidate |
| SpaceEngineersPrograms/Programs/FileSystemServer.cs:101 | `CanRead(len)` tests `position + data.Length <= data.Length`, which ignores `len` and holds only at position 0 | position 1 of 4 bytes with length 1 is refused; position 0 with length 10 is accepted | the read fits: `len > 0` and `position + len <= data.Length` | high, not executed | FileSystemServers.CanReadAsWrittenCounterexample | FileSystemServers.CanOpen |
| SpaceEngineersPrograms/Programs/EngineersOS.cs:13-45 | `%` is replaced after the space and the other characters, so their codes are escaped again | `" "` and `"%20"` both escape to `"%2520"` | each character is encoded once, so that different names get different keys | high, not executed | EngineersOSs.EscapePathCollision | EngineersOSs.PercentEncodeInjective |
| SpaceEngineersPrograms/Programs/EngineersOS.cs:141 | `Delete` passes the object's name, which is already a key, to `DeleteChild`, which escapes it again | a file named `" "` (key `"%2520"`) in `files` is never deleted, because `Delete` looks up `"%252520"` | the object's own key is removed | high, not executed | EngineersOSs.DeleteAsWrittenCounterexample | EngineersOSs.Shell.DeleteSelf |
| SpaceEngineersPrograms/Programs/EngineersOS.cs:723-771 | an absolute path is split on `/` and its leading empty part is looked up as a child key | the shell's own current-directory string, such as `"/files/"`, resolves to nothing | the leading empty part selects the root, and empty parts are skipped | high, not executed | EngineersOSs.PathStringFailsAsWritten | EngineersOSs.PathStringResolves |
