/**
 * The logger program: one text buffer per application ID, filled, replaced, cleared and read back by the
 * `append`, `write`, `clear` and `read` commands. Arguments arrive split on `|`; the data arguments are
 * unescaped and joined with `|` again.
 */
module LoggerPrograms {
  import opened Wrappers
  import opened Errors
  import opened Text
  import opened Escapes

  /** `GetApplicationIDArgument`: the trimmed first argument, or `"0"` when there is none. */
  function ApplicationId(arguments: Option<seq<string>>): (r: Result<string, Exception>)
    ensures arguments.None? <==> r.Err?
    ensures r.Err? ==> r.error == ArgumentNullException("arguments")
    ensures r.Ok? && arguments.value == [] ==> r.value == "0"
    ensures r.Ok? && r.value != [] ==> !IsWhiteSpace(r.value[0]) && !IsWhiteSpace(r.value[|r.value| - 1])
    ensures r.Ok? && arguments.value != [] ==> Contains(arguments.value[0], r.value)
  {
    match arguments
    case None => Err(ArgumentNullException("arguments"))
    case Some(list) =>
      if |list| > 0 then
        var id := Trim(list[0]);
        TrimIsPiece(list[0]);
        Ok(id)
      else Ok("0")
  }

  /** The trimmed text is a piece of the original. */
  lemma TrimIsPiece(s: string)
    ensures Contains(s, Trim(s))
  {
    var a := Lead(s, IsWhiteSpace);
    var t := Trim(s);
    PieceContained(s, t, a);
  }

  lemma {:induction false} PieceContained(s: string, t: string, a: nat)
    requires a + |t| <= |s| && s[a..a + |t|] == t
    ensures Contains(s, t)
  {
    if a > 0 {
      assert s[1..][a - 1..a - 1 + |t|] == t;
      PieceContained(s[1..], t, a - 1);
    } else {
      assert s[..|t|] == t;
    }
  }

  /** The text of each key followed by a line break (`StringBuilder.AppendLine`). */
  function Lines(names: seq<string>): (r: string)
    ensures |r| >= |names| * |NewLine|
  {
    if names == [] then "" else Lines(names[..|names| - 1]) + names[|names| - 1] + NewLine
  }

  /** A second update of the same key overrides the first. */
  lemma UpdateTwice(m: map<string, string>, k: string, a: string, b: string)
    ensures m[k := a][k := b] == m[k := b]
  {
  }

  class LoggerProgram {
    /** `outputs`: the buffer of each application, `StringBuilder`s modelled by their text. */
    var outputs: map<string, string>
    /** `Me.CustomData`, where `read` and `applications` put their answer. */
    var customData: string

    constructor()
      ensures outputs == map[] && customData == ""
    {
      outputs := map[];
      customData := "";
    }

    /** The text `read` shows for `id`. */
    function Buffer(id: string): string
      reads this
    {
      if id in outputs then outputs[id] else ""
    }

    /** `GetOrCreateAppOutput`: gives the buffer of `id`, adding an empty one under `id` if there is none. */
    method GetOrCreateAppOutput(id: string) returns (buffer: string)
      modifies this`outputs
      ensures id in outputs && buffer == outputs[id] == old(Buffer(id))
      ensures outputs == if id in old(outputs) then old(outputs) else old(outputs)[id := ""]
    {
      if id in outputs {
        buffer := outputs[id];
      } else {
        buffer := "";
        outputs := outputs[id := buffer];
      }
    }

    /** `AppendOutput`: applies the escape table entry by entry and appends the result to the buffer of `id`. */
    method AppendOutput(id: string, escapedText: string)
      requires id in outputs
      modifies this`outputs
      ensures outputs == old(outputs)[id := old(outputs[id]) + Unescape(escapedText)]
    {
      var text := escapedText;
      var i := 0;
      while i < |EscapeTable|
        invariant 0 <= i <= |EscapeTable|
        invariant text == UnescapePrefix(escapedText, i)
        invariant outputs == old(outputs)
      {
        PatternsStartWithBackslash();
        text := Replace(text, EscapeTable[i].0, EscapeTable[i].1);
        i := i + 1;
      }
      outputs := outputs[id := outputs[id] + text];
    }

    /** The loop shared by `AppendCommand` and `WriteCommand` (the `i`-th argument is `data[i - 1]`):
        appends each data argument, with `|` between them. */
    method AppendArguments(id: string, data: seq<string>)
      requires id in outputs
      modifies this`outputs
      ensures outputs == old(outputs)[id := old(outputs[id]) + UnescapedJoin(data, |data|, "|")]
    {
      var first := true;
      var i := 0;
      while i < |data|
        invariant 0 <= i <= |data|
        invariant first <==> i == 0
        invariant id in outputs && outputs == old(outputs)[id := outputs[id]]
        invariant outputs[id] == old(outputs[id]) + UnescapedJoin(data, i, "|")
      {
        JoinStep(data, i, "|");
        ghost var before := outputs[id];
        if first {
          first := false;
        } else {
          outputs := outputs[id := outputs[id] + "|"];
        }
        AppendOutput(id, data[i]);
        assert outputs[id] == before + (if i == 0 then "" else "|") + Unescape(data[i]);
        i := i + 1;
      }
      assert outputs == old(outputs)[id := old(outputs[id]) + UnescapedJoin(data, |data|, "|")];
    }

    /** `AppendCommand`: adds the joined data to the buffer of the application, creating it if needed. */
    method AppendCommand(arguments: Option<seq<string>>) returns (r: Result<bool, Exception>)
      modifies this`outputs
      ensures arguments.None? ==> r == Err(ArgumentNullException("arguments")) && outputs == old(outputs)
      ensures arguments.Some? ==>
        var id := ApplicationId(arguments).value;
        r == Ok(true) && outputs == old(outputs)[id := old(Buffer(id)) + JoinedData(arguments.value)]
    {
      var id := ApplicationId(arguments);
      if id.Err? {
        return Err(id.error);
      }
      var _ := GetOrCreateAppOutput(id.value);
      AppendArguments(id.value, DataArguments(arguments.value));
      r := Ok(true);
    }

    /** `WriteCommand`: replaces the buffer of the application by the joined data. */
    method WriteCommand(arguments: Option<seq<string>>) returns (r: Result<bool, Exception>)
      modifies this`outputs
      ensures arguments.None? ==> r == Err(ArgumentNullException("arguments")) && outputs == old(outputs)
      ensures arguments.Some? ==>
        var id := ApplicationId(arguments).value;
        r == Ok(true) && outputs == old(outputs)[id := JoinedData(arguments.value)]
    {
      var id := ApplicationId(arguments);
      if id.Err? {
        return Err(id.error);
      }
      var _ := GetOrCreateAppOutput(id.value);
      ClearBuffer(id.value);
      AppendArguments(id.value, DataArguments(arguments.value));
      ghost var joined := JoinedData(arguments.value);
      assert "" + joined == joined;
      UpdateTwice(old(outputs), id.value, "", joined);
      r := Ok(true);
    }

    /** `StringBuilder.Clear` on the buffer of `id`. */
    method ClearBuffer(id: string)
      requires id in outputs
      modifies this`outputs
      ensures outputs == old(outputs)[id := ""]
    {
      outputs := outputs[id := ""];
    }

    /** `ClearCommand`: with an argument, removes that application's buffer and says whether it existed;
        without one, removes every buffer. The argument count is read before any null check. */
    method ClearCommand(arguments: Option<seq<string>>) returns (r: Result<bool, Exception>)
      modifies this`outputs
      ensures arguments.None? ==> r == Err(NullReferenceException) && outputs == old(outputs)
      ensures arguments.Some? && arguments.value == [] ==> r == Ok(true) && outputs == map[]
      ensures arguments.Some? && arguments.value != [] ==>
        var id := ApplicationId(arguments).value;
        r == Ok(id in old(outputs)) && outputs == old(outputs) - {id}
    {
      if arguments.None? {
        return Err(NullReferenceException);
      }
      if |arguments.value| > 0 {
        var id := ApplicationId(arguments).value;
        r := Ok(id in outputs);
        outputs := outputs - {id};
      } else {
        outputs := map[];
        r := Ok(true);
      }
    }

    /** `ReadCommand`: shows the application's buffer, or nothing, and says whether it has one. */
    method ReadCommand(arguments: Option<seq<string>>) returns (r: Result<bool, Exception>)
      modifies this`customData
      ensures arguments.None? ==> r == Err(ArgumentNullException("arguments")) && customData == old(customData)
      ensures arguments.Some? ==>
        var id := ApplicationId(arguments).value;
        r == Ok(id in outputs) && customData == Buffer(id)
    {
      var id := ApplicationId(arguments);
      if id.Err? {
        return Err(id.error);
      }
      var present := id.value in outputs;
      customData := if present then outputs[id.value] else "";
      r := Ok(present);
    }

    /** `ApplicationsCommand`: shows every application ID on a line of its own. Dictionary key order is
        not specified, so the listing is some ordering of the keys, each exactly once. */
    method ApplicationsCommand() returns (r: bool)
      modifies this`customData
      ensures r
      ensures exists listed: seq<string> ::
        |listed| == |outputs| && (forall k :: k in listed <==> k in outputs) && customData == Lines(listed)
    {
      var rest := outputs.Keys;
      var listed: seq<string> := [];
      while rest != {}
        invariant rest <= outputs.Keys
        invariant forall k :: k in listed <==> k in outputs && k !in rest
        invariant |listed| + |rest| == |outputs|
        decreases |rest|
      {
        var k :| k in rest;
        listed := listed + [k];
        rest := rest - {k};
      }
      customData := Lines(listed);
      r := true;
    }
  }

  /** Writing and then reading an application gives back exactly its joined data. */
  method WriteThenRead(logger: LoggerProgram, arguments: seq<string>) returns (shown: string)
    modifies logger
    ensures shown == JoinedData(arguments)
  {
    var w := logger.WriteCommand(Some(arguments));
    var r := logger.ReadCommand(Some(arguments));
    shown := logger.customData;
  }
}
