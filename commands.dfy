/** `ArgumentString`: the name of a command argument and whether it may be left out. */
module ArgumentStrings {
  import opened Wrappers
  import opened Text
  import opened Errors

  datatype ArgumentString = ArgumentString(argument: string, isOptional: bool) {
    /** `ToString`: the name, marked when optional. */
    function ToString(): (r: string)
      ensures |r| == |argument| + (if isOptional then 11 else 0) && r[..|argument|] == argument
      ensures isOptional ==> r[|argument|..] == " (optional)"
    {
      argument + (if isOptional then " (optional)" else "")
    }

    /** `Equals`: only the names are compared. */
    predicate Equals(other: ArgumentString) {
      argument == other.argument
    }
  }

  /** The constructor: a `null` name throws. */
  function NewArgumentString(argument: NullableString, isOptional: bool): (r: Result<ArgumentString, Exception>)
    ensures argument.None? <==> r == Err(ArgumentNullException("argument"))
    ensures r.Ok? ==> r.value.argument == argument.value && r.value.isOptional == isOptional
  {
    if argument.None? then Err(ArgumentNullException("argument")) else Ok(ArgumentString(argument.value, isOptional))
  }

  /** `ArgumentString.Optional`. */
  function Optional(argument: NullableString): (r: Result<ArgumentString, Exception>)
    ensures r.Ok? <==> argument.Some?
    ensures r.Ok? ==> r.value.argument == argument.value && r.value.isOptional
  {
    NewArgumentString(argument, true)
  }

  /** `ArgumentString.Required`, which the implicit conversion from `string` also uses. */
  function Required(argument: NullableString): (r: Result<ArgumentString, Exception>)
    ensures r.Ok? <==> argument.Some?
    ensures r.Ok? ==> r.value.argument == argument.value && !r.value.isOptional
  {
    NewArgumentString(argument, false)
  }

  /** Both factories keep the name; only `Optional` marks it optional, and the two results are `Equals`. */
  lemma FactoriesKeepName(a: string)
    ensures Optional(Some(a)).Ok? && Optional(Some(a)).value.argument == a && Optional(Some(a)).value.isOptional
    ensures Required(Some(a)).Ok? && Required(Some(a)).value.argument == a && !Required(Some(a)).value.isOptional
    ensures Optional(Some(a)).value.Equals(Required(Some(a)).value)
    ensures Optional(Some(a)).value != Required(Some(a)).value
  {
  }
}

/** `Command` and `CommandDelegate`: a named command, its help texts, the delegate it runs and its
    arguments; an alias is a copy under another name that remembers the original. */
module CommandEntries {
  import opened Wrappers
  import opened Text
  import opened Errors
  import opened ArgumentStrings

  /** `CommandDelegate<TResult, TContext>`. */
  type CommandDelegate<R, -C> = (seq<string>, C) -> R

  /** `CommandDelegate<TResult>`. */
  type SimpleDelegate<R> = seq<string> -> R

  datatype Command<R, !C> = Command(
    name: string,
    description: string,
    fullDescription: string,
    aliasTo: Option<Command<R, C>>,
    onExecute: CommandDelegate<R, C>,
    arguments: seq<ArgumentString>)
  {
    /** `IsAlias`. */
    predicate IsAlias() {
      aliasTo.Some?
    }

    /** `ToString` (and so what `Equals` and `GetHashCode` compare): the name. */
    function ToString(): string {
      name
    }
  }

  /** The public constructor: every reference parameter is checked for `null`, in order. */
  function NewCommand<R, C>(name: NullableString, description: NullableString, fullDescription: NullableString,
                            onExecute: Option<CommandDelegate<R, C>>, arguments: seq<ArgumentString>)
    : (r: Result<Command<R, C>, Exception>)
    ensures r.Ok? <==> name.Some? && description.Some? && fullDescription.Some? && onExecute.Some?
    ensures name.None? ==> r == Err(ArgumentNullException("name"))
    ensures name.Some? && description.None? ==> r == Err(ArgumentNullException("description"))
    ensures r.Ok? ==>
      && !r.value.IsAlias() && r.value.name == name.value && r.value.description == description.value
      && r.value.fullDescription == fullDescription.value && r.value.onExecute == onExecute.value
      && r.value.arguments == arguments
  {
    if name.None? then Err(ArgumentNullException("name"))
    else if description.None? then Err(ArgumentNullException("description"))
    else if fullDescription.None? then Err(ArgumentNullException("fullDescription"))
    else if onExecute.None? then Err(ArgumentNullException("onExecute"))
    else Ok(Command(name.value, description.value, fullDescription.value, None, onExecute.value, arguments))
  }

  /** The short `Command.New`: generated help texts. */
  function NewDefaultCommand<R, C>(name: NullableString, onExecute: Option<CommandDelegate<R, C>>, arguments: seq<ArgumentString>)
    : (r: Result<Command<R, C>, Exception>)
    ensures r.Ok? <==> name.Some? && onExecute.Some?
    ensures r.Ok? ==> r.value.description == "Command: " + name.value && r.value.fullDescription == "No help topic available."
  {
    NewCommand(name, Some("Command: " + name.GetOr("")), Some("No help topic available."), onExecute, arguments)
  }

  /** `CreateAlias`: the same command under the name `alias`, pointing back at the original. */
  function CreateAlias<R, C>(command: Command<R, C>, alias: NullableString): (r: Result<Command<R, C>, Exception>)
    ensures alias.None? <==> r == Err(ArgumentNullException("alias"))
    ensures r.Ok? ==>
      && r.value.IsAlias() && r.value.aliasTo == Some(command) && r.value.name == alias.value
      && r.value.description == command.description && r.value.fullDescription == command.fullDescription
      && r.value.onExecute == command.onExecute && r.value.arguments == command.arguments
  {
    if alias.None? then Err(ArgumentNullException("alias"))
    else Ok(command.(name := alias.value, aliasTo := Some(command)))
  }

  /** What one argument adds to the usage line: the delimiter, then the argument between angle brackets. */
  function ArgumentUsage(argument: ArgumentString, delimiter: char): string {
    [delimiter] + "<" + argument.ToString() + ">"
  }

  /** The usage part of the help string: each argument's usage, one after the other. */
  function Usage(arguments: seq<ArgumentString>, delimiter: char): string {
    if arguments == [] then ""
    else Usage(arguments[..|arguments| - 1], delimiter) + ArgumentUsage(arguments[|arguments| - 1], delimiter)
  }

  /** The help text of a command: its description, its full description, and how to call it. */
  function HelpString<R, C>(command: Command<R, C>, delimiter: char): string {
    command.description + NewLine + NewLine + command.fullDescription + NewLine + NewLine
      + "Usage: " + command.name + Usage(command.arguments, delimiter)
  }

  /** `GetHelpString`: the help text, built by appending one argument at a time. */
  method GetHelpString<R, C>(command: Command<R, C>, delimiter: char) returns (s: string)
    ensures s == HelpString(command, delimiter)
  {
    s := command.description + NewLine + NewLine + command.fullDescription + NewLine + NewLine + "Usage: " + command.name;
    var i := 0;
    while i < |command.arguments|
      invariant 0 <= i <= |command.arguments|
      invariant s == command.description + NewLine + NewLine + command.fullDescription + NewLine + NewLine
        + "Usage: " + command.name + Usage(command.arguments[..i], delimiter)
    {
      assert command.arguments[..i + 1][..i] == command.arguments[..i];
      s := s + [delimiter] + "<" + command.arguments[i].ToString() + ">";
      i := i + 1;
    }
    assert command.arguments[..i] == command.arguments;
  }

  /** The usage of two runs of arguments is the usage of the first followed by that of the second. */
  lemma {:induction false} UsageAppend(first: seq<ArgumentString>, second: seq<ArgumentString>, delimiter: char)
    ensures Usage(first + second, delimiter) == Usage(first, delimiter) + Usage(second, delimiter)
    decreases |second|
  {
    if second == [] {
      assert first + second == first;
    } else {
      var init := second[..|second| - 1];
      UsageAppend(first, init, delimiter);
      assert (first + second)[..|first + second| - 1] == first + init;
      assert (first + second)[|first + second| - 1] == second[|second| - 1];
    }
  }

  /** Argument `i` contributes the delimiter and `<argument>`, between the usage of the arguments before it
      and that of the arguments after it: every argument is named, in order. */
  lemma UsageAt(arguments: seq<ArgumentString>, i: nat, delimiter: char)
    requires i < |arguments|
    ensures Usage(arguments, delimiter)
      == Usage(arguments[..i], delimiter) + ArgumentUsage(arguments[i], delimiter) + Usage(arguments[i + 1..], delimiter)
  {
    assert arguments == arguments[..i] + [arguments[i]] + arguments[i + 1..];
    UsageAppend(arguments[..i] + [arguments[i]], arguments[i + 1..], delimiter);
    UsageAppend(arguments[..i], [arguments[i]], delimiter);
    assert [arguments[i]][..0] == [];
  }
}

/** `Commands`: a registry of named commands and aliases, and the parser that runs them on a line of text. */
module CommandSets {
  import opened Wrappers
  import opened Text
  import opened Errors
  import opened Seqs
  import opened Sorting
  import opened ArgumentStrings
  import opened CommandEntries

  /** The name the context `Add`, `AddAliases` (for the looked-up name), `Remove` and `GetHelpTopic(name)` use. */
  function Normalize(name: string): string {
    ToLower(Trim(name))
  }

  /** How many arguments come before the first optional one. */
  function LeadingRequired(arguments: seq<ArgumentString>): (n: nat)
    ensures n <= |arguments|
    ensures forall i :: 0 <= i < n ==> !arguments[i].isOptional
    ensures n == |arguments| || arguments[n].isOptional
  {
    if arguments == [] || arguments[0].isOptional then 0 else 1 + LeadingRequired(arguments[1..])
  }

  /** The context-free delegate the `CommandDelegate<TResult>` overloads of `Add` register: a `null`
      delegate returns `defaultValue`. */
  function Adapt<R, C>(onExecute: Option<SimpleDelegate<R>>, defaultValue: R): CommandDelegate<R, C> {
    (args: seq<string>, context: C) => if onExecute.None? then defaultValue else onExecute.value(args)
  }

  /** One line of the general help topic. */
  function TopicLine<R, C>(command: Command<R, C>): string {
    command.name + ": " + command.description + NewLine
  }

  function TopicLines<R, C>(names: seq<string>, lookup: map<string, Command<R, C>>): string
    requires forall i :: 0 <= i < |names| ==> names[i] in lookup
  {
    if names == [] then ""
    else TopicLines(names[..|names| - 1], lookup) + TopicLine(lookup[names[|names| - 1]])
  }

  /** The general help topic around the lines of the listed commands. */
  function GeneralTopic<R, C>(listed: seq<string>, lookup: map<string, Command<R, C>>, delimiter: char): string
    requires forall i :: 0 <= i < |listed| ==> listed[i] in lookup
  {
    "Help topics:" + NewLine + TopicLines(listed, lookup) + NewLine + "Usage: <command>" + [delimiter] + "<arguments>" + NewLine
  }

  /** The commands the general help topic lists, in this order: every command that is not an alias, sorted
      by name, each once. */
  ghost predicate ListsNonAliases<R, C>(listed: seq<string>, lookup: map<string, Command<R, C>>) {
    && Sorted(listed)
    && (forall i, j :: 0 <= i < j < |listed| ==> listed[i] != listed[j])
    && (forall k :: k in listed <==> k in lookup && !lookup[k].IsAlias())
  }

  /** Sorted lists without repetitions of the same strings are equal, so the listing is determined. */
  lemma {:induction false} SortedUnique(a: seq<string>, b: seq<string>)
    requires Sorted(a) && Sorted(b)
    requires forall i, j :: 0 <= i < j < |a| ==> a[i] != a[j]
    requires forall i, j :: 0 <= i < j < |b| ==> b[i] != b[j]
    requires forall k :: k in a <==> k in b
    ensures a == b
    decreases |a|
  {
    SameElementsEmpty(a, b);
    if a != [] {
      SortedHeadLeast(a);
      SortedHeadLeast(b);
      assert b[0] in a && a[0] in b;
      OrdinalAntisymmetric(a[0], b[0]);
      forall k
        ensures k in a[1..] <==> k in b[1..]
      {
        if k in a[1..] {
          var i :| 0 <= i < |a[1..]| && a[1..][i] == k;
          assert a[i + 1] == k && k != a[0];
          assert k in a && k in b;
          var j :| 0 <= j < |b| && b[j] == k;
          assert j != 0 && b[1..][j - 1] == k;
        }
        if k in b[1..] {
          var i :| 0 <= i < |b[1..]| && b[1..][i] == k;
          assert b[i + 1] == k && k != b[0];
          assert k in b && k in a;
          var j :| 0 <= j < |a| && a[j] == k;
          assert j != 0 && a[1..][j - 1] == k;
        }
      }
      SortedUnique(a[1..], b[1..]);
      assert a == [a[0]] + a[1..] && b == [b[0]] + b[1..];
    }
  }

  lemma SameElementsEmpty(a: seq<string>, b: seq<string>)
    requires forall k :: k in a <==> k in b
    ensures a == [] <==> b == []
  {
    if a != [] {
      assert a[0] in b;
    }
    if b != [] {
      assert b[0] in a;
    }
  }

  lemma {:induction false} SortedHeadLeast(s: seq<string>)
    requires Sorted(s) && s != []
    ensures forall k :: k in s ==> OrdinalLessEq(s[0], k)
    decreases |s|
  {
    OrdinalReflexive(s[0]);
    if |s| > 1 {
      SortedHeadLeast(s[1..]);
      assert OrdinalLessEq(s[0], s[1]);
      forall k | k in s
        ensures OrdinalLessEq(s[0], k)
      {
        if k != s[0] {
          var i :| 0 <= i < |s| && s[i] == k;
          assert s[1..][i - 1] == k;
          OrdinalTransitive(s[0], s[1], k);
        }
      }
    }
  }

  lemma {:induction false} OrdinalReflexive(a: string)
    ensures OrdinalLessEq(a, a)
    decreases |a|
  {
    if a != [] {
      OrdinalReflexive(a[1..]);
    }
  }

  lemma {:induction false} OrdinalTransitive(a: string, b: string, c: string)
    requires OrdinalLessEq(a, b) && OrdinalLessEq(b, c)
    ensures OrdinalLessEq(a, c)
    decreases |a|
  {
    if a != [] && b != [] && c != [] && a[0] == b[0] && b[0] == c[0] {
      OrdinalTransitive(a[1..], b[1..], c[1..]);
    }
  }

  class Commands<R, C> {
    /** The `HashSet` of commands, by the names they compare equal on. */
    var commands: set<string>
    var commandLookup: map<string, Command<R, C>>
    var delimiter: char
    const defaultParseReturnValue: R

    /** The set and the lookup hold the same commands, each under its own name. */
    ghost predicate Valid()
      reads this
    {
      && commands == commandLookup.Keys
      && forall k :: k in commandLookup ==> commandLookup[k].name == k
    }

    /** `Commands(delimiter, defaultParseReturnValue)`; C#'s defaults are `' '` and `default(TResult)`. */
    constructor (delimiter: char, defaultParseReturnValue: R)
      ensures Valid() && commands == {} && commandLookup == map[]
      ensures this.delimiter == delimiter && this.defaultParseReturnValue == defaultParseReturnValue
    {
      commands := {};
      commandLookup := map[];
      this.delimiter := delimiter;
      this.defaultParseReturnValue := defaultParseReturnValue;
    }

    /** Adds `command` unless a command of that name is registered already. */
    method Register(command: Command<R, C>) returns (added: bool)
      requires Valid()
      modifies this`commands, this`commandLookup
      ensures Valid() && added == (command.name !in old(commands))
      ensures added ==> commands == old(commands) + {command.name} && commandLookup == old(commandLookup)[command.name := command]
      ensures !added ==> commands == old(commands) && commandLookup == old(commandLookup)
    {
      if command.name in commands {
        return false;
      }
      commands := commands + {command.name};
      commandLookup := commandLookup[command.name := command];
      return true;
    }

    /** `Add(name, CommandDelegate<TResult, TContext>, arguments)`: the name is trimmed and lower-cased; a
        `null`, empty or white-space name throws; a name already taken gives false and changes nothing. */
    method AddWithContext(commandName: NullableString, onExecute: Option<CommandDelegate<R, C>>, arguments: seq<ArgumentString>)
      returns (r: Result<bool, Exception>)
      requires Valid()
      modifies this`commands, this`commandLookup
      ensures Valid()
      ensures IsNullOrWhiteSpace(commandName) ==>
        r == Err(ArgumentNullException("commandName")) && commands == old(commands) && commandLookup == old(commandLookup)
      ensures !IsNullOrWhiteSpace(commandName) && onExecute.None? ==>
        r == Err(ArgumentNullException("onExecute")) && commands == old(commands) && commandLookup == old(commandLookup)
      ensures !IsNullOrWhiteSpace(commandName) && onExecute.Some? ==>
        var name := Normalize(commandName.value);
        && r == Ok(name !in old(commands))
        && (name in old(commands) ==> commands == old(commands) && commandLookup == old(commandLookup))
        && (name !in old(commands) ==>
          && commands == old(commands) + {name}
          && commandLookup == old(commandLookup)[name := NewDefaultCommand(Some(name), onExecute, arguments).value])
    {
      if IsNullOrWhiteSpace(commandName) {
        return Err(ArgumentNullException("commandName"));
      }
      var command := NewDefaultCommand(Some(Normalize(commandName.value)), onExecute, arguments);
      if command.Err? {
        return Err(command.error);
      }
      var added := Register(command.value);
      return Ok(added);
    }

    /** `Add(name, description, fullDescription, CommandDelegate<TResult, TContext>, arguments)`: the name is
        taken as given. */
    method AddDescribed(commandName: NullableString, description: NullableString, fullDescription: NullableString,
                        onExecute: Option<CommandDelegate<R, C>>, arguments: seq<ArgumentString>)
      returns (r: Result<bool, Exception>)
      requires Valid()
      modifies this`commands, this`commandLookup
      ensures Valid()
      ensures NewCommand(commandName, description, fullDescription, onExecute, arguments).Err? ==>
        && r == Err(NewCommand(commandName, description, fullDescription, onExecute, arguments).error)
        && commands == old(commands) && commandLookup == old(commandLookup)
      ensures NewCommand(commandName, description, fullDescription, onExecute, arguments).Ok? ==>
        && r == Ok(commandName.value !in old(commands))
        && (commandName.value in old(commands) ==> commands == old(commands) && commandLookup == old(commandLookup))
        && (commandName.value !in old(commands) ==>
          && commands == old(commands) + {commandName.value}
          && commandLookup == old(commandLookup)[commandName.value :=
            NewCommand(commandName, description, fullDescription, onExecute, arguments).value])
    {
      var command := NewCommand(commandName, description, fullDescription, onExecute, arguments);
      if command.Err? {
        return Err(command.error);
      }
      var added := Register(command.value);
      return Ok(added);
    }

    /** `Add(name, CommandDelegate<TResult>, arguments)`. */
    method Add(commandName: NullableString, onExecute: Option<SimpleDelegate<R>>, arguments: seq<ArgumentString>)
      returns (r: Result<bool, Exception>)
      requires Valid()
      modifies this`commands, this`commandLookup
      ensures Valid()
      ensures IsNullOrWhiteSpace(commandName) ==>
        r == Err(ArgumentNullException("commandName")) && commands == old(commands) && commandLookup == old(commandLookup)
      ensures !IsNullOrWhiteSpace(commandName) ==>
        var name := Normalize(commandName.value);
        && r == Ok(name !in old(commands))
        && (name in old(commands) ==> commands == old(commands) && commandLookup == old(commandLookup))
        && (name !in old(commands) ==>
          && commands == old(commands) + {name}
          && commandLookup == old(commandLookup)[name := NewDefaultCommand(Some(name), Some(Adapt(onExecute, defaultParseReturnValue)), arguments).value])
    {
      r := AddWithContext(commandName, Some(Adapt(onExecute, defaultParseReturnValue)), arguments);
    }

    /** `AddAliases(name, aliases)`: registers the aliases of the command in order. A `null` alias throws
        and the first alias whose name is taken stops with false; the aliases before it stay registered. The
        result is true only when the loop added every alias and there was at least one. */
    method AddAliases(commandName: NullableString, aliases: Option<seq<NullableString>>) returns (r: Result<bool, Exception>)
      requires Valid()
      modifies this`commands, this`commandLookup
      ensures Valid()
      ensures IsNullOrWhiteSpace(commandName) ==>
        r == Err(ArgumentNullException("commandName")) && commands == old(commands) && commandLookup == old(commandLookup)
      ensures !IsNullOrWhiteSpace(commandName) && aliases.None? ==>
        r == Err(ArgumentNullException("aliases")) && commands == old(commands) && commandLookup == old(commandLookup)
      ensures !IsNullOrWhiteSpace(commandName) && aliases.Some? && Normalize(commandName.value) !in old(commandLookup) ==>
        r == Ok(false) && commands == old(commands) && commandLookup == old(commandLookup)
      ensures !IsNullOrWhiteSpace(commandName) && aliases.Some? && Normalize(commandName.value) in old(commandLookup) ==>
        var list := aliases.value;
        var m := AliasesAdded(list, old(commands));
        var command := old(commandLookup)[Normalize(commandName.value)];
        && r == (if m < |list| && list[m].None? then Err(ArgumentNullException("alias")) else Ok(m == |list| && m > 0))
        && commands == old(commands) + AliasNames(list[..m])
        && (forall k :: k in old(commandLookup) ==> commandLookup[k] == old(commandLookup)[k])
        && (forall k :: k in AliasNames(list[..m]) ==> commandLookup[k] == CreateAlias(command, Some(k)).value)
    {
      if IsNullOrWhiteSpace(commandName) {
        return Err(ArgumentNullException("commandName"));
      }
      if aliases.None? {
        return Err(ArgumentNullException("aliases"));
      }
      var name := Normalize(commandName.value);
      if name !in commandLookup {
        return Ok(false);
      }
      r := RegisterAliases(commandLookup[name], aliases.value);
    }

    /** The loop of `AddAliases` over the aliases of `command`. */
    method RegisterAliases(command: Command<R, C>, list: seq<NullableString>) returns (r: Result<bool, Exception>)
      requires Valid()
      modifies this`commands, this`commandLookup
      ensures Valid()
      ensures
        var m := AliasesAdded(list, old(commands));
        && r == (if m < |list| && list[m].None? then Err(ArgumentNullException("alias")) else Ok(m == |list| && m > 0))
        && commands == old(commands) + AliasNames(list[..m])
        && (forall k :: k in old(commandLookup) ==> commandLookup[k] == old(commandLookup)[k])
        && (forall k :: k in AliasNames(list[..m]) ==> commandLookup[k] == CreateAlias(command, Some(k)).value)
    {
      var ret := false;
      ghost var m := AliasesAdded(list, old(commands));
      ghost var names: set<string> := {};
      assert list[0..] == list && AliasNames(list[..0]) == {};
      var i := 0;
      while i < |list|
        invariant 0 <= i <= m <= |list| && Valid()
        invariant names == AliasNames(list[..i]) && commands == old(commands) + names
        invariant m == i + AliasesAdded(list[i..], commands)
        invariant forall k :: k in old(commandLookup) ==> commandLookup[k] == old(commandLookup)[k]
        invariant forall k :: k in names ==> commandLookup[k] == CreateAlias(command, Some(k)).value
        invariant ret <==> i > 0
      {
        AliasesAddedStep(list[i..], commands);
        assert list[i..][0] == list[i] && list[i..][1..] == list[i + 1..];
        if list[i].None? {
          assert m == i && list[..m] == list[..i];
          return Err(ArgumentNullException("alias"));
        }
        var added := Register(CreateAlias(command, list[i]).value);
        if !added {
          assert m == i;
          ret := false;
          break;
        }
        AliasNamesSnoc(list, i);
        names := names + {list[i].value};
        ret := true;
        i := i + 1;
      }
      return Ok(ret);
    }

    /** `Remove(name)`: deletes exactly the normalised name from the set and the lookup; the command's aliases
        stay. A `null`, empty or white-space name throws. */
    method Remove(commandName: NullableString) returns (r: Result<bool, Exception>)
      requires Valid()
      modifies this`commands, this`commandLookup
      ensures Valid()
      ensures IsNullOrWhiteSpace(commandName) ==>
        r == Err(ArgumentNullException("commandName")) && commands == old(commands) && commandLookup == old(commandLookup)
      ensures !IsNullOrWhiteSpace(commandName) ==>
        var name := Normalize(commandName.value);
        && r == Ok(name in old(commands))
        && commands == old(commands) - {name}
        && commandLookup == old(commandLookup) - {name}
    {
      if IsNullOrWhiteSpace(commandName) {
        return Err(ArgumentNullException("commandName"));
      }
      var name := Normalize(commandName.value);
      var ret := false;
      if name in commandLookup {
        if name in commands {
          commands := commands - {name};
          commandLookup := commandLookup - {name};
          ret := true;
        }
      }
      return Ok(ret);
    }

    /** The required-argument count of `Parse`: the loop over the arguments stops at the first optional one. */
    static method RequiredArguments(arguments: seq<ArgumentString>) returns (n: nat)
      ensures n == LeadingRequired(arguments)
    {
      n := 0;
      while n < |arguments| && !arguments[n].isOptional
        invariant n <= |arguments| && LeadingRequired(arguments) == n + LeadingRequired(arguments[n..])
      {
        assert arguments[n..][1..] == arguments[n + 1..];
        n := n + 1;
      }
    }

    /** The copy loop of `Parse`: every piece after the command name, in order. */
    static method InputArguments(pieces: seq<string>) returns (input: seq<string>)
      requires |pieces| >= 1
      ensures |input| == |pieces| - 1
      ensures forall i :: 0 <= i < |input| ==> input[i] == pieces[i + 1]
    {
      input := [];
      var i := 0;
      while i < |pieces| - 1
        invariant 0 <= i <= |pieces| - 1 && input == pieces[1..i + 1]
      {
        input := input + [pieces[i + 1]];
        i := i + 1;
      }
    }

    /** `Parse(argument, context, out commandName)`: splits the line at the delimiter, looks up the trimmed
        (not lower-cased) first piece, and runs the command on the other pieces when there are more of them
        than it has required arguments; otherwise the result is `DefaultParseReturnValue`. */
    method Parse(argument: NullableString, context: C) returns (r: Result<R, Exception>, commandName: string)
      requires Valid()
      ensures argument.None? ==> r == Err(ArgumentNullException("argument")) && commandName == ""
      ensures argument.Some? ==>
        var pieces := Split(argument.value, delimiter);
        var name := Trim(pieces[0]);
        && commandName == name
        && (name !in commandLookup ==> r == Ok(defaultParseReturnValue))
        && (name in commandLookup && |pieces| <= LeadingRequired(commandLookup[name].arguments) ==>
          r == Ok(defaultParseReturnValue))
        && (name in commandLookup && |pieces| > LeadingRequired(commandLookup[name].arguments) ==>
          r == Ok(commandLookup[name].onExecute(pieces[1..], context)))
    {
      if argument.None? {
        return Err(ArgumentNullException("argument")), "";
      }
      r := Ok(defaultParseReturnValue);
      var pieces := Split(argument.value, delimiter);
      commandName := Trim(pieces[0]);
      if commandName in commandLookup {
        var command := commandLookup[commandName];
        var required := RequiredArguments(command.arguments);
        assert required == LeadingRequired(commandLookup[commandName].arguments);
        if |pieces| > required {
          var input := InputArguments(pieces);
          assert input == pieces[1..];
          r := Ok(command.onExecute(input, context));
          assert r == Ok(commandLookup[commandName].onExecute(pieces[1..], context));
        }
      }
    }

    /** The loop of `GetHelpTopic` over the sorted names: a line for each command that is not an alias. */
    static method TopicLinesOf(sorted: seq<string>, lookup: map<string, Command<R, C>>) returns (lines: string)
      requires forall i :: 0 <= i < |sorted| ==> sorted[i] in lookup
      ensures lines == TopicLines(NonAliases(sorted, lookup), lookup)
    {
      lines := "";
      var i := 0;
      while i < |sorted|
        invariant 0 <= i <= |sorted|
        invariant lines == TopicLines(NonAliases(sorted[..i], lookup), lookup)
      {
        TopicLinesStep(sorted, i, lookup);
        var command := lookup[sorted[i]];
        if !command.IsAlias() {
          lines := lines + TopicLine(command);
        }
        i := i + 1;
      }
      assert sorted[..i] == sorted;
    }

    /** `GetHelpTopic()`: every command that is not an alias, sorted by name, with its description, then a
        usage line. */
    method GetHelpTopic() returns (s: string)
      requires Valid()
      ensures exists listed ::
        && ListsNonAliases(listed, commandLookup) && (forall i :: 0 <= i < |listed| ==> listed[i] in commandLookup)
        && s == GeneralTopic(listed, commandLookup, delimiter)
    {
      var sorted := SortKeys(commands);
      var lines := TopicLinesOf(sorted, commandLookup);
      assert forall k :: k in sorted <==> k in commandLookup;
      NonAliasesListing(sorted, commandLookup);
      ghost var listed := NonAliases(sorted, commandLookup);
      s := "Help topics:" + NewLine + lines + NewLine + "Usage: <command>" + [delimiter] + "<arguments>" + NewLine;
      assert s == GeneralTopic(listed, commandLookup, delimiter);
      assert ListsNonAliases(listed, commandLookup) && (forall i :: 0 <= i < |listed| ==> listed[i] in commandLookup);
    }

    /** `GetHelpTopic(name)`: the help string of the command under the normalised name, or the general topic. */
    method GetHelpTopicFor(commandName: NullableString) returns (r: Result<string, Exception>)
      requires Valid()
      ensures commandName.None? ==> r == Err(ArgumentNullException("commandName"))
      ensures commandName.Some? && Normalize(commandName.value) in commandLookup ==>
        r == Ok("Help topic: " + HelpString(commandLookup[Normalize(commandName.value)], delimiter) + NewLine)
      ensures commandName.Some? && Normalize(commandName.value) !in commandLookup ==>
        r.Ok? && exists listed ::
          && ListsNonAliases(listed, commandLookup) && (forall i :: 0 <= i < |listed| ==> listed[i] in commandLookup)
          && r.value == GeneralTopic(listed, commandLookup, delimiter)
    {
      if commandName.None? {
        return Err(ArgumentNullException("commandName"));
      }
      var name := Normalize(commandName.value);
      if name in commandLookup {
        var help := GetHelpString(commandLookup[name], delimiter);
        return Ok("Help topic: " + help + NewLine);
      }
      var topic := GetHelpTopic();
      return Ok(topic);
    }
  }

  /** The names `AddAliases` registers before it stops: it stops at a `null` alias or at a name that is
      taken, counting the ones it added itself. */
  function AliasesAdded(list: seq<NullableString>, taken: set<string>): (m: nat)
    ensures m <= |list|
    ensures forall i :: 0 <= i < m ==> list[i].Some?
  {
    if list == [] || list[0].None? || list[0].value in taken then 0
    else 1 + AliasesAdded(list[1..], taken + {list[0].value})
  }

  /** The names of the non-`null` aliases. */
  function AliasNames(list: seq<NullableString>): set<string> {
    set i | 0 <= i < |list| && list[i].Some? :: list[i].value
  }

  lemma AliasNamesSnoc(list: seq<NullableString>, i: nat)
    requires i < |list| && list[i].Some?
    ensures AliasNames(list[..i + 1]) == AliasNames(list[..i]) + {list[i].value}
  {
    var a := list[..i + 1];
    assert a[i] == list[i];
    forall k | k in AliasNames(a)
      ensures k in AliasNames(list[..i]) + {list[i].value}
    {
      var j :| 0 <= j < |a| && a[j].Some? && a[j].value == k;
      if j < i {
        assert list[..i][j] == a[j];
      }
    }
    forall k | k in AliasNames(list[..i])
      ensures k in AliasNames(a)
    {
      var j :| 0 <= j < i && list[..i][j].Some? && list[..i][j].value == k;
      assert a[j] == list[..i][j];
    }
  }

  lemma AliasesAddedStep(list: seq<NullableString>, taken: set<string>)
    requires list != []
    ensures list[0].Some? && list[0].value !in taken ==> AliasesAdded(list, taken) == 1 + AliasesAdded(list[1..], taken + {list[0].value})
    ensures list[0].None? || list[0].value in taken ==> AliasesAdded(list, taken) == 0
  {
  }

  /** `AddAliases` adds the whole list when every alias is non-`null`, untaken and different from the others. */
  lemma {:induction false} AllAliasesAdded(list: seq<NullableString>, taken: set<string>)
    requires forall i :: 0 <= i < |list| ==> list[i].Some? && list[i].value !in taken
    requires forall i, j :: 0 <= i < j < |list| ==> list[i] != list[j]
    ensures AliasesAdded(list, taken) == |list|
  {
    if list != [] {
      forall i | 0 <= i < |list[1..]|
        ensures list[1..][i].Some? && list[1..][i].value !in taken + {list[0].value}
      {
        assert list[1..][i] == list[i + 1] && list[i + 1] != list[0];
      }
      AllAliasesAdded(list[1..], taken + {list[0].value});
    }
  }

  /** The names of `names` whose commands are not aliases, in their order. */
  function NonAliases<R, C>(names: seq<string>, lookup: map<string, Command<R, C>>): (r: seq<string>)
    requires forall i :: 0 <= i < |names| ==> names[i] in lookup
    ensures forall i :: 0 <= i < |r| ==> r[i] in lookup && r[i] in names
  {
    if names == [] then []
    else
      var last := names[|names| - 1];
      NonAliases(names[..|names| - 1], lookup) + if lookup[last].IsAlias() then [] else [last]
  }

  lemma TopicLinesStep<R, C>(names: seq<string>, i: nat, lookup: map<string, Command<R, C>>)
    requires i < |names| && forall j :: 0 <= j < |names| ==> names[j] in lookup
    ensures TopicLines(NonAliases(names[..i + 1], lookup), lookup)
      == TopicLines(NonAliases(names[..i], lookup), lookup) + if lookup[names[i]].IsAlias() then "" else TopicLine(lookup[names[i]])
  {
    var a := names[..i + 1];
    assert a[..i] == names[..i] && a[i] == names[i];
    var r0 := NonAliases(names[..i], lookup);
    if lookup[names[i]].IsAlias() {
      assert NonAliases(a, lookup) == r0 + [];
      assert r0 + [] == r0;
    } else {
      var r1 := r0 + [names[i]];
      assert NonAliases(a, lookup) == r1;
      assert r1[..|r0|] == r0 && r1[|r1| - 1] == names[i];
    }
  }

  /** The filter keeps exactly the names of commands that are not aliases. */
  lemma {:induction false} NonAliasesMembers<R, C>(names: seq<string>, lookup: map<string, Command<R, C>>)
    requires forall i :: 0 <= i < |names| ==> names[i] in lookup
    ensures forall k :: k in NonAliases(names, lookup) <==> k in names && !lookup[k].IsAlias()
    decreases |names|
  {
    if names != [] {
      var n := |names|;
      NonAliasesMembers(names[..n - 1], lookup);
      assert names == names[..n - 1] + [names[n - 1]];
    }
  }

  /** Filtering a sorted list keeps it sorted. */
  lemma {:induction false} NonAliasesSorted<R, C>(names: seq<string>, lookup: map<string, Command<R, C>>)
    requires Sorted(names)
    requires forall i :: 0 <= i < |names| ==> names[i] in lookup
    ensures Sorted(NonAliases(names, lookup))
    decreases |names|
  {
    if names != [] {
      var n := |names|;
      var front := names[..n - 1];
      var last := names[n - 1];
      assert Sorted(front);
      NonAliasesSorted(front, lookup);
      var r0 := NonAliases(front, lookup);
      if lookup[last].IsAlias() {
        assert NonAliases(names, lookup) == r0 + [] == r0;
      } else {
        var r := r0 + [last];
        assert NonAliases(names, lookup) == r;
        if r0 != [] {
          assert r0[|r0| - 1] in front;
          var p :| 0 <= p < n - 1 && front[p] == r0[|r0| - 1];
          assert names[p] == front[p];
          SortedChain(names, p, n - 1);
        }
        forall i | 0 < i < |r|
          ensures OrdinalLessEq(r[i - 1], r[i])
        {
          if i < |r0| {
            assert r[i - 1] == r0[i - 1] && r[i] == r0[i];
          } else {
            assert r[i - 1] == r0[|r0| - 1] && r[i] == last;
          }
        }
      }
    }
  }

  /** Filtering a list without repetitions keeps it without repetitions. */
  lemma {:induction false} NonAliasesDistinct<R, C>(names: seq<string>, lookup: map<string, Command<R, C>>)
    requires Distinct(names)
    requires forall i :: 0 <= i < |names| ==> names[i] in lookup
    ensures Distinct(NonAliases(names, lookup))
    decreases |names|
  {
    if names != [] {
      var n := |names|;
      var front := names[..n - 1];
      var last := names[n - 1];
      assert Distinct(front) by {
        forall i, j | 0 <= i < j < |front|
          ensures front[i] != front[j]
        {
          assert front[i] == names[i] && front[j] == names[j];
        }
      }
      NonAliasesDistinct(front, lookup);
      var r0 := NonAliases(front, lookup);
      if lookup[last].IsAlias() {
        assert NonAliases(names, lookup) == r0 + [] == r0;
      } else {
        assert NonAliases(names, lookup) == r0 + [last];
        forall i | 0 <= i < |r0|
          ensures r0[i] != last
        {
          assert r0[i] in front;
          var p :| 0 <= p < n - 1 && front[p] == r0[i];
          assert names[p] == front[p] && names[n - 1] == last;
        }
        var r := r0 + [last];
        forall i, j | 0 <= i < j < |r|
          ensures r[i] != r[j]
        {
          if j < |r0| {
            assert r[i] == r0[i] && r[j] == r0[j];
          } else {
            assert r[i] == r0[i] && r[j] == last;
          }
        }
      }
    }
  }

  lemma NonAliasesListing<R, C>(sorted: seq<string>, lookup: map<string, Command<R, C>>)
    requires Sorted(sorted) && (forall i, j :: 0 <= i < j < |sorted| ==> sorted[i] != sorted[j])
    requires forall k :: k in sorted <==> k in lookup
    ensures forall i :: 0 <= i < |sorted| ==> sorted[i] in lookup
    ensures ListsNonAliases(NonAliases(sorted, lookup), lookup)
  {
    NonAliasesSorted(sorted, lookup);
    NonAliasesDistinct(sorted, lookup);
    NonAliasesMembers(sorted, lookup);
  }

  lemma {:induction false} SortedChain(s: seq<string>, p: nat, q: nat)
    requires Sorted(s) && p <= q < |s|
    ensures OrdinalLessEq(s[p], s[q])
    decreases q - p
  {
    if p == q {
      OrdinalReflexive(s[p]);
    } else {
      SortedChain(s, p, q - 1);
      OrdinalTransitive(s[p], s[q - 1], s[q]);
    }
  }
}
