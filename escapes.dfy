/**
 * The escape table shared by the logger and the file-system program: each backslash sequence in an argument
 * becomes the character it names. The table is applied one entry after another with `string.Replace`, in its
 * declaration order (the enumeration order of a `Dictionary` filled once and never changed).
 */
module Escapes {
  import opened Text

  const Alert: char := 7 as char
  const Backspace: char := 8 as char
  const VerticalTab: char := 11 as char
  const FormFeed: char := 12 as char

  /** `escapeCharacters`: pattern, then replacement. The single backslash maps to itself. */
  const EscapeTable: seq<(string, string)> := [
    ("\\a", [Alert]), ("\\b", [Backspace]), ("\\f", [FormFeed]), ("\\n", "\n"), ("\\r", "\r"),
    ("\\t", "\t"), ("\\v", [VerticalTab]), ("\\", "\\"), ("\\'", "'"), ("\\\"", "\"")]

  /** Every pattern of the table starts with a backslash. */
  lemma PatternsStartWithBackslash()
    ensures forall i :: 0 <= i < |EscapeTable| ==> EscapeTable[i].0 != [] && EscapeTable[i].0[0] == '\\'
  {
  }

  /** The text after the first `n` replacements of the table. */
  function UnescapePrefix(s: string, n: nat): string
    requires n <= |EscapeTable|
  {
    if n == 0 then s
    else
      PatternsStartWithBackslash();
      Replace(UnescapePrefix(s, n - 1), EscapeTable[n - 1].0, EscapeTable[n - 1].1)
  }

  /** `UnescapeText`: the text after the whole table. */
  function Unescape(s: string): string {
    UnescapePrefix(s, |EscapeTable|)
  }

  /** Every entry's pattern holds a backslash, so a text without one passes every step unchanged. */
  lemma {:induction false} UnescapePrefixPlain(s: string, n: nat)
    requires n <= |EscapeTable| && '\\' !in s
    ensures UnescapePrefix(s, n) == s
  {
    if n > 0 {
      UnescapePrefixPlain(s, n - 1);
      PatternsStartWithBackslash();
      var pattern := EscapeTable[n - 1].0;
      if Contains(s, pattern) {
        ContainsFirstChar(s, pattern);
      }
    }
  }

  /** Unescaping is the identity on text without a backslash. */
  lemma UnescapePlain(s: string)
    requires '\\' !in s
    ensures Unescape(s) == s
  {
    UnescapePrefixPlain(s, |EscapeTable|);
  }

  /** The unescaped form of each argument. */
  function UnescapeAll(arguments: seq<string>): (r: seq<string>)
    ensures |r| == |arguments|
    ensures forall i :: 0 <= i < |arguments| ==> r[i] == Unescape(arguments[i])
  {
    seq(|arguments|, i requires 0 <= i < |arguments| => Unescape(arguments[i]))
  }

  /** Backslash-free arguments are taken as they are. */
  lemma UnescapeAllPlain(arguments: seq<string>)
    requires forall i :: 0 <= i < |arguments| ==> '\\' !in arguments[i]
    ensures UnescapeAll(arguments) == arguments
  {
    forall i | 0 <= i < |arguments|
      ensures UnescapeAll(arguments)[i] == arguments[i]
    {
      UnescapePlain(arguments[i]);
    }
  }

  /** The data arguments: all but the first (the key or the path), none when there are no arguments. */
  function DataArguments(arguments: seq<string>): (r: seq<string>)
    ensures |arguments| > 0 ==> r == arguments[1..]
  {
    if arguments == [] then [] else arguments[1..]
  }

  /** What the appending loops of the logger and the file-system program have built after the first `n`
      data arguments: each unescaped, with `sep` between them. */
  function UnescapedJoin(data: seq<string>, n: nat, sep: string): string
    requires n <= |data|
  {
    Join(UnescapeAll(data[..n]), sep)
  }

  /** One more round of the appending loop adds the separator (except the first time) and the unescaped argument. */
  lemma JoinStep(data: seq<string>, n: nat, sep: string)
    requires n < |data|
    ensures UnescapedJoin(data, n + 1, sep)
      == (if n == 0 then "" else UnescapedJoin(data, n, sep) + sep) + Unescape(data[n])
  {
    var init := UnescapeAll(data[..n]);
    assert UnescapeAll(data[..n + 1]) == init + [Unescape(data[n])];
    if n > 0 {
      JoinSnoc(init, Unescape(data[n]), sep);
    } else {
      assert init + [Unescape(data[n])] == [Unescape(data[n])];
    }
  }

  /** The data of an `append` or `write` command (the logger's `AppendCommand`/`WriteCommand`, the file-system
      program's `GetContentArgument`): every argument after the first, unescaped, with `|` between them. */
  function JoinedData(arguments: seq<string>): string {
    var data := DataArguments(arguments);
    UnescapedJoin(data, |data|, "|")
  }

  /** Arguments without a backslash are written as they were given. */
  lemma JoinedDataPlain(arguments: seq<string>)
    requires |arguments| > 0
    requires forall i :: 1 <= i < |arguments| ==> '\\' !in arguments[i]
    ensures JoinedData(arguments) == Join(arguments[1..], "|")
  {
    assert arguments[1..][..|arguments| - 1] == arguments[1..];
    UnescapeAllPlain(arguments[1..]);
  }
}
