/**
 * EngineersOS: a shell over a tree of file-system objects (the root with its `apps`, `files` and
 * `commands` directories, plain directories and files, and executable commands and apps), the percent
 * escaping that turns names into child keys, path resolution, the current-directory string, and the console
 * that buffers typed input into lines and executes each completed line.
 */
module EngineersOSs {
  import opened Wrappers
  import opened Seqs
  import opened Errors
  import opened Text

  /** The characters `EscapePath` replaces, in the order it replaces them. */
  const PathKeys: seq<char> := [' ', '$', '&', '`', '<', '>', '[', ']', '{', '}', '"', '+', '#', '%', '@', '/', ';', '=', '?', '\\', '^', '|', '~', '\U{2018}', ',']

  /** The position of `%` among the keys. */
  const PercentIndex: nat := 13

  /** The two hexadecimal digits of the code `EscapePath` gives a key character. The curly quote U+2018 gets
      `27`, the code of the ASCII apostrophe. */
  function HexOf(c: char): Option<(char, char)> {
    if c == ' ' then Some(('2', '0'))
    else if c == '$' then Some(('2', '4'))
    else if c == '&' then Some(('2', '6'))
    else if c == '`' then Some(('6', '0'))
    else if c == '<' then Some(('3', 'C'))
    else if c == '>' then Some(('3', 'E'))
    else if c == '[' then Some(('5', 'B'))
    else if c == ']' then Some(('5', 'D'))
    else if c == '{' then Some(('7', 'B'))
    else if c == '}' then Some(('7', 'D'))
    else if c == '"' then Some(('2', '2'))
    else if c == '+' then Some(('2', 'B'))
    else if c == '#' then Some(('2', '3'))
    else if c == '%' then Some(('2', '5'))
    else if c == '@' then Some(('4', '0'))
    else if c == '/' then Some(('2', 'F'))
    else if c == ';' then Some(('3', 'B'))
    else if c == '=' then Some(('3', 'D'))
    else if c == '?' then Some(('3', 'F'))
    else if c == '\\' then Some(('5', 'C'))
    else if c == '^' then Some(('5', 'E'))
    else if c == '|' then Some(('7', 'C'))
    else if c == '~' then Some(('7', 'E'))
    else if c == '\U{2018}' then Some(('2', '7'))
    else if c == ',' then Some(('2', 'C'))
    else None
  }

  /** The key character whose code has these two digits. */
  function DecodeHex(hi: char, lo: char): Option<char> {
    if hi == '2' && lo == '0' then Some(' ')
    else if hi == '2' && lo == '4' then Some('$')
    else if hi == '2' && lo == '6' then Some('&')
    else if hi == '6' && lo == '0' then Some('`')
    else if hi == '3' && lo == 'C' then Some('<')
    else if hi == '3' && lo == 'E' then Some('>')
    else if hi == '5' && lo == 'B' then Some('[')
    else if hi == '5' && lo == 'D' then Some(']')
    else if hi == '7' && lo == 'B' then Some('{')
    else if hi == '7' && lo == 'D' then Some('}')
    else if hi == '2' && lo == '2' then Some('"')
    else if hi == '2' && lo == 'B' then Some('+')
    else if hi == '2' && lo == '3' then Some('#')
    else if hi == '2' && lo == '5' then Some('%')
    else if hi == '4' && lo == '0' then Some('@')
    else if hi == '2' && lo == 'F' then Some('/')
    else if hi == '3' && lo == 'B' then Some(';')
    else if hi == '3' && lo == 'D' then Some('=')
    else if hi == '3' && lo == 'F' then Some('?')
    else if hi == '5' && lo == 'C' then Some('\\')
    else if hi == '5' && lo == 'E' then Some('^')
    else if hi == '7' && lo == 'C' then Some('|')
    else if hi == '7' && lo == 'E' then Some('~')
    else if hi == '2' && lo == '7' then Some('\U{2018}')
    else if hi == '2' && lo == 'C' then Some(',')
    else None
  }

  /** The characters a code is made of. */
  predicate IsCodeChar(c: char) {
    c == '%' || '0' <= c <= '9' || 'A' <= c <= 'F'
  }

  /** A character's escape: `%` and its two digits for a key, the character itself otherwise. */
  function EncodeChar(c: char): (r: string)
    ensures HexOf(c).None? ==> r == [c]
    ensures HexOf(c).Some? ==> |r| == 3 && r[0] == '%'
  {
    match HexOf(c)
    case None => [c]
    case Some((hi, lo)) => ['%', hi, lo]
  }

  /** Each code is made of code characters and decodes to its key, which is not a code character
      unless it is `%`. */
  lemma HexOfKey(c: char)
    requires HexOf(c).Some?
    ensures IsCodeChar(HexOf(c).value.0) && IsCodeChar(HexOf(c).value.1)
    ensures DecodeHex(HexOf(c).value.0, HexOf(c).value.1) == Some(c)
    ensures c != '%' ==> !IsCodeChar(c)
  {
  }

  /** Every key has a code, and `%` is the key at `PercentIndex`. */
  lemma KeyHasCode(j: nat)
    requires j < |PathKeys|
    ensures HexOf(PathKeys[j]).Some?
    ensures PathKeys[j] == '%' <==> j == PercentIndex
  {
  }

  /** The characters with a code are the keys. */
  lemma CodedIsKey(c: char)
    requires HexOf(c).Some?
    ensures c in PathKeys
  {
  }

  /** No key other than `%` occurs in a code, so no replacement brings one back. */
  lemma KeyOutsideCodes(x: char, c: char)
    requires x != '%'
    requires HexOf(x).Some?
    ensures x !in EncodeChar(c) || x == c
  {
    HexOfKey(x);
    var e := EncodeChar(c);
    if HexOf(c).Some? {
      HexOfKey(c);
      assert e == ['%', HexOf(c).value.0, HexOf(c).value.1];
    }
  }

  /** The replacements of the keys from `lo` up to `hi`, one after the other, the way the chained
      `string.Replace` calls of `EscapePath` apply them. */
  function EscapeSteps(t: string, lo: nat, hi: nat): string
    requires lo <= hi <= |PathKeys|
    decreases hi - lo
  {
    if lo == hi then t
    else EscapeSteps(Replace(t, [PathKeys[lo]], EncodeChar(PathKeys[lo])), lo + 1, hi)
  }

  /** `PathUtils.EscapePath` as written: `null` throws, otherwise all 25 replacements in the order above. */
  function EscapePath(input: NullableString): (r: Result<string, Exception>)
    ensures input.None? <==> r.Err?
    ensures r.Err? ==> r.error == ArgumentNullException("input")
  {
    if input.None? then Err(ArgumentNullException("input")) else Ok(EscapeSteps(input.value, 0, |PathKeys|))
  }

  /** Applying the steps from `a` to `b` and then from `b` to `c` is applying those from `a` to `c`. */
  lemma {:induction false} EscapeStepsSplit(t: string, a: nat, b: nat, c: nat)
    requires a <= b <= c <= |PathKeys|
    ensures EscapeSteps(t, a, c) == EscapeSteps(EscapeSteps(t, a, b), b, c)
    decreases b - a
  {
    if a < b {
      EscapeStepsSplit(Replace(t, [PathKeys[a]], EncodeChar(PathKeys[a])), a + 1, b, c);
    }
  }

  /** Steps whose keys do not occur leave the text as it is. */
  lemma {:induction false} EscapeStepsPlain(t: string, lo: nat, hi: nat)
    requires lo <= hi <= |PathKeys|
    requires forall j :: lo <= j < hi ==> PathKeys[j] !in t
    ensures EscapeSteps(t, lo, hi) == t
    decreases hi - lo
  {
    if lo < hi {
      ContainsChar(t, PathKeys[lo]);
      EscapeStepsPlain(t, lo + 1, hi);
    }
  }

  /** One step keeps out each key other than `%` that was already absent, and removes its own. */
  lemma EscapeStepKeepsOut(t: string, lo: nat, j: nat)
    requires j <= lo < |PathKeys| && j != PercentIndex
    requires j < lo ==> PathKeys[j] !in t
    ensures PathKeys[j] !in Replace(t, [PathKeys[lo]], EncodeChar(PathKeys[lo]))
  {
    var key := PathKeys[lo];
    var x := PathKeys[j];
    KeyHasCode(j);
    KeyOutsideCodes(x, key);
    if j < lo {
      ReplaceKeepsOut(t, [key], EncodeChar(key), x);
    } else {
      ReplaceCharOut(t, key, EncodeChar(key));
    }
  }

  /** None of the first `n` keys other than `%` occurs in `t`. */
  predicate KeysOut(t: string, n: nat)
    requires n <= |PathKeys|
  {
    forall j :: 0 <= j < n && j != PercentIndex ==> PathKeys[j] !in t
  }

  /** A key other than `%` that a step has replaced never comes back. */
  lemma {:induction false} EscapeStepsKeepOut(t: string, lo: nat, hi: nat)
    requires lo <= hi <= |PathKeys| && KeysOut(t, lo)
    ensures KeysOut(EscapeSteps(t, lo, hi), hi)
    decreases hi - lo
  {
    if lo < hi {
      var next := Replace(t, [PathKeys[lo]], EncodeChar(PathKeys[lo]));
      forall j | 0 <= j < lo + 1 && j != PercentIndex
        ensures PathKeys[j] !in next
      {
        EscapeStepKeepsOut(t, lo, j);
      }
      assert KeysOut(next, lo + 1);
      EscapeStepsKeepOut(next, lo + 1, hi);
    }
  }

  /** The escaped text holds none of the 24 keys other than `%`. */
  lemma EscapePathLeavesNoKey(s: string)
    ensures forall j :: 0 <= j < |PathKeys| && j != PercentIndex ==> PathKeys[j] !in EscapePath(Some(s)).value
  {
    EscapeStepsKeepOut(s, 0, |PathKeys|);
    assert KeysOut(EscapePath(Some(s)).value, |PathKeys|);
  }

  /** Text with none of the 25 keys is returned unchanged. */
  lemma EscapePathPlain(s: string)
    requires forall i :: 0 <= i < |s| ==> s[i] !in PathKeys
    ensures EscapePath(Some(s)) == Ok(s)
  {
    EscapeStepsPlain(s, 0, |PathKeys|);
  }

  /** Text made of code characters holds no key other than `%`. */
  lemma CodeTextHasNoKey(t: string, lo: nat, hi: nat)
    requires forall i :: 0 <= i < |t| ==> IsCodeChar(t[i])
    requires lo <= hi <= |PathKeys| && (hi <= PercentIndex || PercentIndex < lo)
    ensures forall j :: lo <= j < hi ==> PathKeys[j] !in t
  {
    forall j | lo <= j < hi
      ensures PathKeys[j] !in t
    {
      KeyHasCode(j);
      HexOfKey(PathKeys[j]);
    }
  }

  /** The first thirteen steps turn a space into `%20`. */
  lemma EscapeSpace(space: string)
    requires space == " "
    ensures EscapeSteps(space, 0, PercentIndex) == "%20"
  {
    var next := Replace(space, [PathKeys[0]], EncodeChar(PathKeys[0]));
    assert next == "%20";
    EscapeStepsSplit(space, 0, 1, PercentIndex);
    CodeTextHasNoKey(next, 1, PercentIndex);
    EscapeStepsPlain(next, 1, PercentIndex);
  }

  /** The remaining steps turn `%20` into `%2520`. */
  lemma EscapePercentTwenty(code: string)
    requires code == "%20"
    ensures EscapeSteps(code, PercentIndex, |PathKeys|) == "%2520"
  {
    var next := Replace(code, [PathKeys[PercentIndex]], EncodeChar(PathKeys[PercentIndex]));
    assert PathKeys[PercentIndex] == '%' && EncodeChar('%') == "%25";
    assert Replace("%20", "%", "%25") == "%2520";
    CodeTextHasNoKey(next, PercentIndex + 1, |PathKeys|);
    EscapeStepsPlain(next, PercentIndex + 1, |PathKeys|);
  }

  /** Because `%` is replaced after the space has become `%20`, a space and the text `%20` get the same
      key, `%2520`. */
  lemma EscapePathCollision(space: string, code: string)
    requires space == " " && code == "%20"
    ensures space != code && EscapePath(Some(space)) == EscapePath(Some(code)) == Ok("%2520")
  {
    EscapeSpace(space);
    EscapePercentTwenty(code);
    EscapeStepsSplit(space, 0, PercentIndex, |PathKeys|);
    EscapeStepsSplit(code, 0, PercentIndex, |PathKeys|);
    CodeTextHasNoKey(code, 0, PercentIndex);
    EscapeStepsPlain(code, 0, PercentIndex);
  }

  /** A step never shortens the text, the step for `%` lengthens a text holding one by two, and the steps
      before it keep every `%`. */
  lemma {:induction false} EscapeStepsGrow(t: string, lo: nat, hi: nat)
    requires lo <= hi <= |PathKeys|
    ensures |EscapeSteps(t, lo, hi)| >= |t| + (if lo <= PercentIndex < hi && '%' in t then 2 else 0)
    decreases hi - lo
  {
    if lo < hi {
      var key := PathKeys[lo];
      KeyHasCode(lo);
      var next := Replace(t, [key], EncodeChar(key));
      ReplaceCharGrows(t, key, EncodeChar(key));
      if lo < PercentIndex && '%' in t {
        ReplaceCharKeeps(t, key, EncodeChar(key), '%');
      }
      EscapeStepsGrow(next, lo + 1, hi);
    }
  }

  /** Escaping never shortens a name, and lengthens one holding `%`: such a name is never its own escape. */
  lemma EscapePathGrows(s: string)
    ensures |EscapePath(Some(s)).value| >= |s| + (if '%' in s then 2 else 0)
  {
    EscapeStepsGrow(s, 0, |PathKeys|);
  }

  /** The key is empty exactly when the name is. */
  lemma EscapePathEmpty(s: string)
    ensures EscapePath(Some(s)).value == [] <==> s == []
  {
    EscapePathGrows(s);
    if s == [] {
      EscapePathPlain(s);
    }
  }

  /** Replacing the `%` of text made of code characters brings in no key after `%`. */
  lemma {:induction false} PercentStepKeepsOut(t: string)
    requires forall i :: 0 <= i < |t| ==> IsCodeChar(t[i])
    ensures forall j :: PercentIndex < j < |PathKeys| ==> PathKeys[j] !in Replace(t, "%", "%25")
  {
    CodeTextHasNoKey(t, PercentIndex + 1, |PathKeys|);
    forall j | PercentIndex < j < |PathKeys|
      ensures PathKeys[j] !in Replace(t, "%", "%25")
    {
      KeyHasCode(j);
      HexOfKey(PathKeys[j]);
      ReplaceKeepsOut(t, "%", "%25", PathKeys[j]);
    }
  }

  /** From the step for `%` on, text made of code characters only has its `%` replaced. */
  lemma {:induction false} EscapeCodeTextFromPercent(t: string)
    requires forall i :: 0 <= i < |t| ==> IsCodeChar(t[i])
    ensures EscapeSteps(t, PercentIndex, |PathKeys|) == Replace(t, "%", "%25")
  {
    var key := PathKeys[PercentIndex];
    assert key == '%';
    var code := EncodeChar(key);
    assert code == "%25";
    var next := Replace(t, [key], code);
    assert EscapeSteps(t, PercentIndex, |PathKeys|) == EscapeSteps(next, PercentIndex + 1, |PathKeys|);
    PercentStepKeepsOut(t);
    EscapeStepsPlain(next, PercentIndex + 1, |PathKeys|);
  }

  /** Text made of code characters only has its `%` replaced. */
  lemma {:induction false} EscapeCodeText(t: string)
    requires forall i :: 0 <= i < |t| ==> IsCodeChar(t[i])
    ensures EscapePath(Some(t)).value == Replace(t, "%", "%25")
  {
    EscapeStepsSplit(t, 0, PercentIndex, |PathKeys|);
    CodeTextHasNoKey(t, 0, PercentIndex);
    EscapeStepsPlain(t, 0, PercentIndex);
    EscapeCodeTextFromPercent(t);
  }

  /** The key of a space, escaped once more, gains another `25`. */
  lemma {:induction false} EscapeSpaceKey(key: string)
    requires key == "%2520"
    ensures EscapePath(Some(key)) == Ok("%252520")
  {
    EscapeCodeText(key);
    var rest := key[1..];
    assert key[..1] == "%" && '%' !in rest;
    ContainsChar(rest, '%');
    assert Replace(rest, "%", "%25") == rest;
    assert Replace(key, "%", "%25") == "%25" + Replace(rest, "%", "%25");
    assert "%25" + rest == "%252520";
  }

  /** The corrected `EscapePath` text: every character escaped independently, once. */
  function PercentEncode(s: string): string {
    FlatMap(s, EncodeChar)
  }

  /** Reads an escaped name back: each code becomes its character. */
  function PercentDecode(s: string): string
    decreases |s|
  {
    if s == [] then []
    else if |s| >= 3 && s[0] == '%' && DecodeHex(s[1], s[2]).Some? then [DecodeHex(s[1], s[2]).value] + PercentDecode(s[3..])
    else [s[0]] + PercentDecode(s[1..])
  }

  /** Decoding undoes the corrected escape. */
  lemma {:induction false} PercentRoundTrip(s: string)
    ensures PercentDecode(PercentEncode(s)) == s
    decreases |s|
  {
    if s != [] {
      PercentRoundTrip(s[1..]);
      var rest := PercentEncode(s[1..]);
      var code := EncodeChar(s[0]);
      assert PercentEncode(s) == code + rest;
      if HexOf(s[0]).Some? {
        HexOfKey(s[0]);
        assert (code + rest)[3..] == rest;
        assert (code + rest)[..3] == code;
      } else {
        assert HexOf('%').Some?;
        assert ([s[0]] + rest)[1..] == rest;
      }
      assert s == [s[0]] + s[1..];
    }
  }

  /** So distinct names get distinct keys. */
  lemma PercentEncodeInjective(a: string, b: string)
    requires PercentEncode(a) == PercentEncode(b)
    ensures a == b
  {
    PercentRoundTrip(a);
    PercentRoundTrip(b);
  }

  /** The corrected escape also leaves none of the 24 keys other than `%`. */
  lemma PercentEncodeLeavesNoKey(s: string)
    ensures forall j :: 0 <= j < |PathKeys| && j != PercentIndex ==> PathKeys[j] !in PercentEncode(s)
  {
    forall j | 0 <= j < |PathKeys| && j != PercentIndex
      ensures PathKeys[j] !in PercentEncode(s)
    {
      var x := PathKeys[j];
      KeyHasCode(j);
      if x in PercentEncode(s) {
        FlatMapChars(s, EncodeChar, x);
        var i :| 0 <= i < |s| && x in EncodeChar(s[i]);
        KeyOutsideCodes(x, s[i]);
      }
    }
  }

  /** Text with none of the keys is its own escape. */
  lemma {:induction false} PercentEncodePlain(s: string)
    requires forall i :: 0 <= i < |s| ==> s[i] !in PathKeys
    ensures PercentEncode(s) == s
    decreases |s|
  {
    if s != [] {
      if HexOf(s[0]).Some? {
        CodedIsKey(s[0]);
      }
      PercentEncodePlain(s[1..]);
      assert s == [s[0]] + s[1..];
    }
  }

  // ---------------------------------------------------------------------------------------------
  // File-system objects

  /** The classes of file-system object; each fixes the capability flags its class reports. */
  datatype Kind = Command | CommandsDirectory | App | AppsDirectory | File | Directory | Root
  {
    predicate IsFile() { this == File }
    predicate IsDirectory() { this == CommandsDirectory || this == AppsDirectory || this == Directory || this == Root }
    predicate CanRead() { this == File }
    predicate CanWrite() { this == File }
    predicate CanExecute() { this == Command || this == App }
    predicate CanCreateFile() { this == Directory }
    predicate CanCreateDirectory() { this == Directory }
    predicate CanDeleteFile() { this == Directory }
    predicate CanDeleteDirectory() { this == Directory }
  }

  /** One object: its name, its parent (an id, `None` for the root), its children by key, and a file's text. */
  datatype FileSystemObject = FileSystemObject(kind: Kind, name: string, parent: Option<nat>, children: map<string, nat>, content: string)

  /** Object references become ids into one map; the root directory is id 0. */
  type Objects = map<nat, FileSystemObject>

  const RootId: nat := 0

  /** A non-root object hangs below an older object and has a nonempty name without `/`. */
  predicate ParentOk(o: Objects, id: nat)
    requires id in o
  {
    o[id].parent.Some? && o[id].parent.value in o && o[id].parent.value < id && o[id].name != [] && '/' !in o[id].name
  }

  /** The child under key `k` exists, points back at its directory and carries `k` as its name. */
  predicate ChildOk(o: Objects, id: nat, k: string)
    requires id in o && k in o[id].children
  {
    var c := o[id].children[k];
    c in o && o[c].parent == Some(id) && o[c].name == k
  }

  /** The shape every reachable object graph has. */
  predicate WellFormed(o: Objects) {
    && RootId in o && o[RootId].kind == Root && o[RootId].parent.None? && o[RootId].name == ""
    && (forall id :: id in o && id != RootId ==> ParentOk(o, id))
    && (forall id, k :: id in o && k in o[id].children ==> ChildOk(o, id, k))
  }

  /** Each object's name followed by `/`, from the root down: the text `Shell.CurrentDirectory` builds. */
  function PathString(o: Objects, id: nat): (r: string)
    requires WellFormed(o) && id in o
    ensures |r| > 0 && r[0] == '/' && r[|r| - 1] == '/'
    decreases id
  {
    if id == RootId then "/"
    else
      assert ParentOk(o, id);
      PathString(o, o[id].parent.value) + o[id].name + "/"
  }

  /** The names from the root down to `id`, the root's own empty name left out. */
  function Parts(o: Objects, id: nat): (r: seq<string>)
    requires WellFormed(o) && id in o
    ensures forall i :: 0 <= i < |r| ==> r[i] != [] && '/' !in r[i]
    decreases id
  {
    if id == RootId then []
    else
      assert ParentOk(o, id);
      Parts(o, o[id].parent.value) + [o[id].name]
  }

  /** The current-directory string is the names joined by `/`, between a leading and a trailing `/`. */
  lemma {:induction false} PathStringParts(o: Objects, id: nat)
    requires WellFormed(o) && id in o
    ensures PathString(o, id) == Join([""] + Parts(o, id) + [""], "/")
    decreases id
  {
    if id != RootId {
      assert ParentOk(o, id);
      var p := o[id].parent.value;
      var name := o[id].name;
      PathStringParts(o, p);
      JoinSnoc([""] + Parts(o, p), "", "/");
      JoinSnoc([""] + Parts(o, p), name, "/");
      JoinSnoc([""] + Parts(o, p) + [name], "", "/");
      assert [""] + Parts(o, id) + [""] == [""] + Parts(o, p) + [name] + [""];
    } else {
      assert [""] + Parts(o, id) + [""] == ["", ""];
    }
  }

  /** No child is filed under the empty key: only the root has an empty name, and it has no parent. */
  lemma NoEmptyKey(o: Objects, id: nat)
    requires WellFormed(o) && id in o
    ensures "" !in o[id].children
  {
    forall k | k in o[id].children
      ensures k != ""
    {
      assert ChildOk(o, id, k);
      var c := o[id].children[k];
      assert c != RootId;
      assert ParentOk(o, c);
    }
  }

  // ---------------------------------------------------------------------------------------------
  // Path resolution

  /**
   * One part of a path as `Shell.GetPath` takes it: `.` stays, `..` goes to the parent (nothing above the
   * root), anything else is looked up among the children. With `skipEmpty` the empty part, which `//`, a
   * leading `/` and a trailing `/` produce, also stays; as written it is looked up like a name, and no
   * child has the empty key.
   */
  function Step(o: Objects, at: nat, part: string, skipEmpty: bool): (r: Option<nat>)
    requires WellFormed(o) && at in o
    ensures r.Some? ==> r.value in o
  {
    if part == "." || (skipEmpty && part == "") then Some(at)
    else if part == ".." then
      (if at == RootId then None else assert ParentOk(o, at); o[at].parent)
    else if part in o[at].children then
      assert ChildOk(o, at, part);
      Some(o[at].children[part])
    else None
  }

  /** Following the parts in order, stopping at the first one that leads nowhere. */
  function Walk(o: Objects, at: nat, parts: seq<string>, skipEmpty: bool): (r: Option<nat>)
    requires WellFormed(o) && at in o
    ensures r.Some? ==> r.value in o
    decreases |parts|
  {
    if parts == [] then Some(at)
    else
      match Step(o, at, parts[0], skipEmpty)
      case None => None
      case Some(next) => Walk(o, next, parts[1..], skipEmpty)
  }

  /** `Shell.GetPath`: no path means the current directory; otherwise the trimmed path is split at `/` and
      walked from the root when it starts with `/`, from the current directory when not. */
  function Resolve(o: Objects, current: nat, path: NullableString, skipEmpty: bool): (r: Option<nat>)
    requires WellFormed(o) && current in o
    ensures r.Some? ==> r.value in o
  {
    if path.None? then Some(current)
    else
      var t := Trim(path.value);
      Walk(o, if t != [] && t[0] == '/' then RootId else current, Split(t, '/'), skipEmpty)
  }

  /** Walking two runs of parts is walking the first, then the second from where it ended. */
  lemma {:induction false} WalkAppend(o: Objects, at: nat, a: seq<string>, b: seq<string>, skipEmpty: bool)
    requires WellFormed(o) && at in o
    ensures Walk(o, at, a + b, skipEmpty) == match Walk(o, at, a, skipEmpty) case None => None case Some(m) => Walk(o, m, b, skipEmpty)
    decreases |a|
  {
    if a != [] {
      assert (a + b)[0] == a[0] && (a + b)[1..] == a[1..] + b;
      var step := Step(o, at, a[0], skipEmpty);
      if step.Some? {
        WalkAppend(o, step.value, a[1..], b, skipEmpty);
      }
    } else {
      assert a + b == b;
    }
  }

  /** The path as written: every absolute path, and the empty path, resolve to nothing, because the empty
      part in front of the leading `/` is looked up as a child name. */
  lemma AbsolutePathFailsAsWritten(o: Objects, current: nat, path: string)
    requires WellFormed(o) && current in o
    requires Trim(path) == [] || Trim(path)[0] == '/'
    ensures Resolve(o, current, Some(path), false) == None
  {
    var t := Trim(path);
    SplitHead(t, '/');
    var start := if t != [] && t[0] == '/' then RootId else current;
    assert Split(t, '/')[0] == "";
    NoEmptyKey(o, start);
  }

  /** An object every ancestor of which is filed under its own name, none of them `.` or `..`. */
  predicate Reachable(o: Objects, id: nat)
    requires WellFormed(o) && id in o
    decreases id
  {
    id == RootId ||
    (assert ParentOk(o, id);
     var p := o[id].parent.value;
     var name := o[id].name;
     name != "." && name != ".." && name in o[p].children && o[p].children[name] == id && Reachable(o, p))
  }

  /** Walking the names from the root finds the object again; no name is empty, so this holds as written
      and with empty parts skipped. */
  lemma {:induction false} WalkParts(o: Objects, id: nat, skipEmpty: bool)
    requires WellFormed(o) && id in o && Reachable(o, id)
    ensures Walk(o, RootId, Parts(o, id), skipEmpty) == Some(id)
    decreases id
  {
    if id != RootId {
      assert ParentOk(o, id);
      var p := o[id].parent.value;
      WalkParts(o, p, skipEmpty);
      WalkAppend(o, RootId, Parts(o, p), [o[id].name], skipEmpty);
    }
  }

  /** As written, a relative path works: from the root directory, the names of a reachable object joined by
      `/` lead to it, when the joined text neither starts nor ends with white space. */
  lemma RelativePathResolves(o: Objects, id: nat)
    requires WellFormed(o) && id in o && Reachable(o, id)
    requires var j := Join(Parts(o, id), "/"); j != [] && !IsWhiteSpace(j[0]) && !IsWhiteSpace(j[|j| - 1])
    ensures Resolve(o, RootId, Some(Join(Parts(o, id), "/")), false) == Some(id)
  {
    var j := Join(Parts(o, id), "/");
    TrimKeepsEnds(j);
    if id != RootId {
      assert ParentOk(o, id);
    }
    SplitJoin(Parts(o, id), '/');
    WalkParts(o, id, false);
  }

  /** The current-directory string splits at `/` into its names between two empty parts. */
  lemma PathStringSplits(o: Objects, id: nat)
    requires WellFormed(o) && id in o
    ensures Split(PathString(o, id), '/') == [""] + Parts(o, id) + [""]
  {
    PathStringParts(o, id);
    SplitFramed(Parts(o, id), '/');
  }

  /** An untrimmed absolute path is walked from the root, part by part. */
  lemma ResolveAbsolute(o: Objects, current: nat, s: string, skipEmpty: bool)
    requires WellFormed(o) && current in o
    requires s != [] && s[0] == '/' && s[|s| - 1] == '/'
    ensures Resolve(o, current, Some(s), skipEmpty) == Walk(o, RootId, Split(s, '/'), skipEmpty)
  {
    TrimKeepsEnds(s);
  }

  /** With empty parts skipped, the names of a reachable object between two empty parts lead to it. */
  lemma WalkFramedParts(o: Objects, id: nat)
    requires WellFormed(o) && id in o && Reachable(o, id)
    ensures Walk(o, RootId, [""] + Parts(o, id) + [""], true) == Some(id)
  {
    var names := Parts(o, id);
    WalkAppend(o, RootId, [""] + names, [""], true);
    assert ([""] + names)[1..] == names;
    WalkParts(o, id, true);
  }

  /** With empty parts skipped, the current-directory string of any reachable object resolves, from
      anywhere, back to that object. */
  lemma PathStringResolves(o: Objects, current: nat, id: nat)
    requires WellFormed(o) && current in o && id in o && Reachable(o, id)
    ensures Resolve(o, current, Some(PathString(o, id)), true) == Some(id)
  {
    ResolveAbsolute(o, current, PathString(o, id), true);
    PathStringSplits(o, id);
    WalkFramedParts(o, id);
  }

  /** As written, the same string resolves to nothing. */
  lemma PathStringFailsAsWritten(o: Objects, current: nat, id: nat)
    requires WellFormed(o) && current in o && id in o
    ensures Resolve(o, current, Some(PathString(o, id)), false) == None
  {
    ResolveAbsolute(o, current, PathString(o, id), false);
    PathStringSplits(o, id);
    NoEmptyKey(o, RootId);
  }

  // ---------------------------------------------------------------------------------------------
  // Changes to the object map

  /** A new object of kind `kind` with id `id`, filed under `key` in directory `dir`. */
  function AddChild(o: Objects, dir: nat, key: string, id: nat, kind: Kind): Objects
    requires dir in o
  {
    o[id := FileSystemObject(kind, key, Some(dir), map[], "")][dir := o[dir].(children := o[dir].children[key := id])]
  }

  /** `children.Remove(key)` on directory `dir`; the removed object itself stays unreachable in the map. */
  function RemoveChild(o: Objects, dir: nat, key: string): Objects
    requires dir in o
  {
    o[dir := o[dir].(children := o[dir].children - {key})]
  }

  /** A file's new text. */
  function SetContent(o: Objects, id: nat, text: string): Objects
    requires id in o
  {
    o[id := o[id].(content := text)]
  }

  /** `o2` keeps every object of `o1` with its name and its parent. */
  predicate Extends(o1: Objects, o2: Objects) {
    forall x :: x in o1 ==> x in o2 && o2[x].name == o1[x].name && o2[x].parent == o1[x].parent
  }

  /** The current-directory string only depends on names and parents. */
  lemma {:induction false} PathStringFrame(o1: Objects, o2: Objects, x: nat)
    requires WellFormed(o1) && WellFormed(o2) && Extends(o1, o2) && x in o1
    ensures PathString(o2, x) == PathString(o1, x)
    decreases x
  {
    if x != RootId {
      assert ParentOk(o1, x);
      PathStringFrame(o1, o2, o1[x].parent.value);
    }
  }

  /** A fresh id with a nonempty name without `/`, under a key not yet taken, keeps the shape. */
  lemma AddChildWellFormed(o: Objects, dir: nat, key: string, id: nat, kind: Kind)
    requires WellFormed(o) && dir in o && (forall x :: x in o ==> x < id)
    requires key != [] && '/' !in key && key !in o[dir].children
    ensures WellFormed(AddChild(o, dir, key, id, kind)) && Extends(o, AddChild(o, dir, key, id, kind))
  {
    AddChildParents(o, dir, key, id, kind);
    AddChildChildren(o, dir, key, id, kind);
  }

  lemma AddChildParents(o: Objects, dir: nat, key: string, id: nat, kind: Kind)
    requires WellFormed(o) && dir in o && (forall x :: x in o ==> x < id)
    requires key != [] && '/' !in key
    ensures forall x :: x in AddChild(o, dir, key, id, kind) && x != RootId ==> ParentOk(AddChild(o, dir, key, id, kind), x)
  {
    var o2 := AddChild(o, dir, key, id, kind);
    forall x | x in o2 && x != RootId
      ensures ParentOk(o2, x)
    {
      if x != id {
        assert ParentOk(o, x);
      }
    }
  }

  lemma AddChildChildren(o: Objects, dir: nat, key: string, id: nat, kind: Kind)
    requires WellFormed(o) && dir in o && (forall x :: x in o ==> x < id)
    requires key !in o[dir].children
    ensures forall x, k :: x in AddChild(o, dir, key, id, kind) && k in AddChild(o, dir, key, id, kind)[x].children ==>
              ChildOk(AddChild(o, dir, key, id, kind), x, k)
  {
    var o2 := AddChild(o, dir, key, id, kind);
    forall x, k | x in o2 && k in o2[x].children
      ensures ChildOk(o2, x, k)
    {
      if x != dir || k != key {
        assert ChildOk(o, x, k);
      }
    }
  }

  /** Removing a key keeps the shape. */
  lemma RemoveChildWellFormed(o: Objects, dir: nat, key: string)
    requires WellFormed(o) && dir in o
    ensures WellFormed(RemoveChild(o, dir, key)) && Extends(o, RemoveChild(o, dir, key))
  {
    var o2 := RemoveChild(o, dir, key);
    forall x | x in o2 && x != RootId
      ensures ParentOk(o2, x)
    {
      assert ParentOk(o, x);
    }
    forall x, k | x in o2 && k in o2[x].children
      ensures ChildOk(o2, x, k)
    {
      assert ChildOk(o, x, k);
    }
  }

  /** Writing a file keeps the shape. */
  lemma SetContentWellFormed(o: Objects, id: nat, text: string)
    requires WellFormed(o) && id in o
    ensures WellFormed(SetContent(o, id, text)) && Extends(o, SetContent(o, id, text))
  {
    var o2 := SetContent(o, id, text);
    forall x | x in o2 && x != RootId
      ensures ParentOk(o2, x)
    {
      assert ParentOk(o, x);
    }
    forall x, k | x in o2 && k in o2[x].children
      ensures ChildOk(o2, x, k)
    {
      assert ChildOk(o, x, k);
    }
  }

  /** A key `EscapePath` makes never holds `/`, so it is one part of a path. */
  lemma KeyHasNoSlash(s: string)
    ensures '/' !in EscapePath(Some(s)).value
  {
    EscapePathLeavesNoKey(s);
    assert PathKeys[15] == '/';
  }

  /** `RootDirectory`'s constructor: `apps`, `files` and `commands` below the root, and the `list`, `ls`
      and `dir` commands in `commands`. */
  function InitialObjects(): Objects {
    map[
      RootId := FileSystemObject(Root, "", None, map["apps" := 1, "files" := 2, "commands" := 3], ""),
      1 := FileSystemObject(AppsDirectory, "apps", Some(RootId), map[], ""),
      2 := FileSystemObject(Directory, "files", Some(RootId), map[], ""),
      3 := FileSystemObject(CommandsDirectory, "commands", Some(RootId), map["list" := 4, "ls" := 5, "dir" := 6], ""),
      4 := FileSystemObject(Command, "list", Some(3), map[], ""),
      5 := FileSystemObject(Command, "ls", Some(3), map[], ""),
      6 := FileSystemObject(Command, "dir", Some(3), map[], "")
    ]
  }

  /** The initial tree has the shape, with ids below 7. */
  lemma InitialObjectsWellFormed()
    ensures WellFormed(InitialObjects()) && (forall x :: x in InitialObjects() ==> x < 7)
  {
    InitialParents();
    InitialChildren();
  }

  lemma InitialParents()
    ensures forall x :: x in InitialObjects() && x != RootId ==> ParentOk(InitialObjects(), x)
  {
    var o := InitialObjects();
    forall x | x in o && x != RootId
      ensures ParentOk(o, x)
    {
    }
  }

  lemma InitialChildren()
    ensures forall x, k :: x in InitialObjects() && k in InitialObjects()[x].children ==> ChildOk(InitialObjects(), x, k)
  {
    var o := InitialObjects();
    forall x, k | x in o && k in o[x].children
      ensures ChildOk(o, x, k)
    {
      if x == RootId {
        assert k == "apps" || k == "files" || k == "commands";
      } else if x == 3 {
        assert k == "list" || k == "ls" || k == "dir";
      }
    }
  }

  /** What a shell keeps true: the shape, fresh ids above every id in use, a current object, and a cached
      current-directory string that is the current object's. */
  predicate ShellState(o: Objects, next: nat, current: nat, cache: NullableString) {
    && WellFormed(o) && (forall x :: x in o ==> x < next) && current in o
    && (cache.Some? ==> cache.value == PathString(o, current))
  }

  /** Adding an object under the next id keeps the shell's state. */
  lemma AddKeepsState(o: Objects, next: nat, current: nat, cache: NullableString, dir: nat, key: string, kind: Kind)
    requires ShellState(o, next, current, cache) && dir in o
    requires key != [] && '/' !in key && key !in o[dir].children
    ensures ShellState(AddChild(o, dir, key, next, kind), next + 1, current, cache)
  {
    AddChildWellFormed(o, dir, key, next, kind);
    PathStringFrame(o, AddChild(o, dir, key, next, kind), current);
  }

  /** A change that keeps every id, name and parent keeps the shell's state. */
  lemma SameLinksKeepState(o: Objects, o2: Objects, next: nat, current: nat, cache: NullableString)
    requires ShellState(o, next, current, cache) && WellFormed(o2) && Extends(o, o2) && o2.Keys == o.Keys
    ensures ShellState(o2, next, current, cache)
  {
    PathStringFrame(o, o2, current);
  }

  // ---------------------------------------------------------------------------------------------
  // The shell

  /** Whether directory `dir` would add an object for `name`: only a plain directory creates, the name must
      be given and nonempty, and its key must be free. */
  predicate CanAdd(o: Objects, dir: nat, name: NullableString)
    requires dir in o
  {
    o[dir].kind == Directory && name.Some? && name.value != [] && EscapePath(name).value !in o[dir].children
  }

  /** Whether `DeleteChild` on directory `dir` removes the child under `key`: files need `CanDeleteFile`,
      directories `CanDeleteDirectory`. */
  predicate RemovableChild(o: Objects, dir: nat, key: string)
    requires dir in o
  {
    key in o[dir].children && o[dir].children[key] in o &&
    var kind := o[o[dir].children[key]].kind;
    (kind.IsFile() && o[dir].kind.CanDeleteFile()) || (kind.IsDirectory() && o[dir].kind.CanDeleteDirectory())
  }

  /** `CanDeleteSelf`: the parent's flags allow deleting an object of this kind. */
  predicate CanDeleteSelf(o: Objects, id: nat)
    requires id in o
  {
    o[id].parent.Some? && o[id].parent.value in o &&
    var p := o[o[id].parent.value];
    (o[id].kind.IsFile() && p.kind.CanDeleteFile()) || (o[id].kind.IsDirectory() && p.kind.CanDeleteDirectory())
  }

  /** The object is still filed in its parent under its own name. */
  predicate Attached(o: Objects, id: nat)
    requires id in o
  {
    o[id].parent.Some? && o[id].parent.value in o &&
    o[id].name in o[o[id].parent.value].children && o[o[id].parent.value].children[o[id].name] == id
  }

  /** The root can never delete itself; for an attached object the parent removes its key exactly when
      `CanDeleteSelf` says it may. */
  lemma DeleteSelfMatchesFlags(o: Objects, id: nat)
    requires WellFormed(o) && id in o && Attached(o, id)
    ensures !CanDeleteSelf(o, RootId)
    ensures CanDeleteSelf(o, id) <==> RemovableChild(o, o[id].parent.value, o[id].name)
  {
  }

  /** `Delete` as written passes the name, already a key, to `DeleteChild`, which escapes it again: a key with
      a `%` becomes longer, so unless that longer key happens to be filed too the object is not deleted
      although `CanDeleteSelf` holds. */
  lemma DeleteAsWrittenMisses(o: Objects, id: nat)
    requires WellFormed(o) && id in o && Attached(o, id) && CanDeleteSelf(o, id) && '%' in o[id].name
    requires forall k :: k in o[o[id].parent.value].children ==> k == o[id].name
    ensures RemovableChild(o, o[id].parent.value, o[id].name)
    ensures !RemovableChild(o, o[id].parent.value, EscapePath(Some(o[id].name)).value)
  {
    EscapePathGrows(o[id].name);
  }

  /** A file created in `files` from the name " " gets the key "%2520"; `CanDeleteSelf` then holds for it,
      yet `Delete` as written looks up "%252520" and does not remove it. */
  lemma DeleteAsWrittenCounterexample(space: string, key: string)
    requires space == " " && key == "%2520"
    ensures EscapePath(Some(space)) == Ok(key) && EscapePath(Some(key)) == Ok("%252520")
    ensures var o := AddChild(InitialObjects(), 2, key, 7, File);
            WellFormed(o) && Attached(o, 7) && CanDeleteSelf(o, 7) && !RemovableChild(o, 2, EscapePath(Some(key)).value)
  {
    EscapePathCollision(space, "%20");
    EscapeSpaceKey(key);
    SpaceFileAttached(key);
    var o := AddChild(InitialObjects(), 2, key, 7, File);
    assert o[2].children == map[key := 7];
  }

  /** The file filed as "%2520" in the initial `files` directory. */
  lemma SpaceFileAttached(key: string)
    requires key == "%2520"
    ensures var o := AddChild(InitialObjects(), 2, key, 7, File);
            WellFormed(o) && Attached(o, 7) && CanDeleteSelf(o, 7)
  {
    InitialObjectsWellFormed();
    AddChildWellFormed(InitialObjects(), 2, key, 7, File);
  }

  /** The main program's command argument splits at the first space: the path of the app to run, and the
      rest, which starts with that space. */
  function Argument(command: string): (r: string) {
    var appPath := Split(command, ' ')[0];
    SplitHead(command, ' ');
    if |command| > |appPath| then command[|appPath|..] else ""
  }

  /** The path and the argument give the command back; only the argument holds spaces. */
  lemma CommandSplitsAtFirstSpace(command: string)
    ensures Split(command, ' ')[0] + Argument(command) == command
    ensures ' ' !in Split(command, ' ')[0]
    ensures Argument(command) == [] || Argument(command)[0] == ' '
  {
    SplitHead(command, ' ');
  }

  /** `Shell.Execute`: the first word is resolved as a path; a command of the `commands` directory then
      succeeds (the list command always reports success), an app does what `run` says its programmable block
      does with the rest of the line, and anything else fails. */
  predicate Executes(o: Objects, current: nat, command: NullableString, run: (nat, string) -> bool)
    requires WellFormed(o) && current in o
  {
    && command.Some?
    && var target := Resolve(o, current, Some(Split(command.value, ' ')[0]), false);
    && target.Some?
    && o[target.value].kind.CanExecute()
    && (o[target.value].kind == Command || run(target.value, Argument(command.value)))
  }

  /** The loop of the `CurrentDirectory` getter: from `id` up the parents, each name and a `/` put in front. */
  method BuildPathString(o: Objects, id: nat) returns (builder: string)
    requires WellFormed(o) && id in o
    ensures builder == PathString(o, id)
  {
    builder := "";
    var path := Some(id);
    while path.Some?
      invariant path.Some? ==> path.value in o && PathString(o, path.value) + builder == PathString(o, id)
      invariant path.None? ==> builder == PathString(o, id)
      decreases if path.Some? then path.value + 1 else 0
    {
      var at := path.value;
      var node := o[at];
      if at != RootId {
        assert ParentOk(o, at);
        assert PathString(o, at) + builder == PathString(o, node.parent.value) + (node.name + "/" + builder);
      } else {
        assert PathString(o, at) + builder == node.name + "/" + builder;
      }
      builder := node.name + "/" + builder;
      path := node.parent;
    }
  }

  /** One round of the `GetPath` loop: `.` stays, `..` goes to the parent, anything else, the empty part
      included, to the child filed under it. */
  method PathStep(o: Objects, at: nat, parts: seq<string>, i: nat, ghost j: nat) returns (next: Option<nat>)
    requires WellFormed(o) && at in o && i < |parts| && j == i + 1
    ensures next.Some? ==> next.value in o
    ensures next.None? ==> Walk(o, at, parts[i..], false) == None
    ensures next.Some? ==> Walk(o, at, parts[i..], false) == Walk(o, next.value, parts[j..], false)
  {
    var part := parts[i];
    assert parts[i..][0] == part && parts[i..][1..] == parts[j..];
    if part == "." {
      next := Some(at);
    } else if part == ".." {
      if o[at].parent.None? {
        next := None;
      } else {
        assert ParentOk(o, at);
        next := o[at].parent;
      }
    } else if part in o[at].children {
      assert ChildOk(o, at, part);
      next := Some(o[at].children[part]);
    } else {
      next := None;
    }
    assert next == Step(o, at, part, false);
  }

  /** The loop of `Shell.GetPath`: follows the parts in order from `start`, and gives up at the first that leads nowhere. */
  method FollowParts(o: Objects, start: nat, parts: seq<string>) returns (r: Option<nat>)
    requires WellFormed(o) && start in o
    ensures r == Walk(o, start, parts, false)
  {
    var at := start;
    var i := 0;
    while i < |parts|
      invariant 0 <= i <= |parts| && at in o
      invariant Walk(o, at, parts[i..], false) == Walk(o, start, parts, false)
    {
      var next := PathStep(o, at, parts, i, i + 1);
      if next.None? {
        return None;
      }
      at := next.value;
      i := i + 1;
    }
    assert parts[i..] == [];
    r := Some(at);
  }

  /** The body of `Shell.GetPath`, over the objects and the current directory. */
  method ResolvePath(o: Objects, current: nat, path: NullableString) returns (r: Option<nat>)
    requires WellFormed(o) && current in o
    ensures r == Resolve(o, current, path, false)
  {
    r := Some(current);
    if path.Some? {
      var trimmed := Trim(path.value);
      var at := current;
      if |trimmed| > 0 && trimmed[0] == '/' {
        at := RootId;
      }
      r := FollowParts(o, at, Split(trimmed, '/'));
    }
  }

  class Shell {
    /** Every object, by id; `RootDirectory` is `objects[RootId]`. */
    var objects: Objects
    /** The id the next created object gets. */
    var nextId: nat
    /** `currentDirectoryPath`. */
    var currentDirectoryPath: nat
    /** `currentDirectory`, the cached current-directory string. */
    var currentDirectory: NullableString

    predicate Valid()
      reads this
    {
      ShellState(objects, nextId, currentDirectoryPath, currentDirectory)
    }

    constructor()
      ensures Valid() && objects == InitialObjects() && nextId == 7
      ensures currentDirectoryPath == RootId && currentDirectory.None?
    {
      InitialObjectsWellFormed();
      objects := InitialObjects();
      nextId := 7;
      currentDirectoryPath := RootId;
      currentDirectory := None;
    }

    /** The `CurrentDirectoryPath` setter: no object means the root, and the cached string is dropped. */
    method SetCurrentDirectoryPath(value: Option<nat>)
      requires Valid() && (value.Some? ==> value.value in objects)
      modifies this`currentDirectoryPath, this`currentDirectory
      ensures Valid() && currentDirectoryPath == value.GetOr(RootId) && currentDirectory.None?
    {
      currentDirectory := None;
      currentDirectoryPath := if value.None? then RootId else value.value;
    }

    /** The `CurrentDirectory` getter: builds the string once, walking up the parents, and caches it. */
    method CurrentDirectory() returns (r: string)
      requires Valid()
      modifies this`currentDirectory
      ensures Valid() && r == PathString(objects, currentDirectoryPath) && currentDirectory == Some(r)
    {
      if currentDirectory.None? {
        var built := BuildPathString(objects, currentDirectoryPath);
        currentDirectory := Some(built);
      }
      r := currentDirectory.value;
    }

    /** `GetPath` as written: the empty part is looked up like a name. */
    method GetPath(path: NullableString) returns (r: Option<nat>)
      requires Valid()
      ensures r == Resolve(objects, currentDirectoryPath, path, false)
    {
      r := ResolvePath(objects, currentDirectoryPath, path);
    }

    /** `ChangeDirectory`: moves to the resolved object when it is a directory, and returns it either way. */
    method ChangeDirectory(path: NullableString) returns (r: Option<nat>)
      requires Valid()
      modifies this`currentDirectoryPath, this`currentDirectory
      ensures Valid() && r == Resolve(objects, old(currentDirectoryPath), path, false)
      ensures r.Some? && objects[r.value].kind.IsDirectory() ==> currentDirectoryPath == r.value && currentDirectory.None?
      ensures !(r.Some? && objects[r.value].kind.IsDirectory()) ==>
                currentDirectoryPath == old(currentDirectoryPath) && currentDirectory == old(currentDirectory)
    {
      r := GetPath(path);
      if r.Some? && objects[r.value].kind.IsDirectory() {
        SetCurrentDirectoryPath(r);
      }
    }

    /** `Execute`. */
    method Execute(command: NullableString, run: (nat, string) -> bool) returns (r: bool)
      requires Valid()
      ensures r == Executes(objects, currentDirectoryPath, command, run)
    {
      r := false;
      if command.Some? {
        var appPath := Split(command.value, ' ')[0];
        var target := GetPath(Some(appPath));
        if target.Some? && objects[target.value].kind.CanExecute() {
          if objects[target.value].kind == Command {
            r := true;
          } else {
            r := run(target.value, Argument(command.value));
          }
        }
      }
    }

    /** `CreateFile` on the object `dir`. */
    method CreateFile(dir: nat, fileName: NullableString) returns (r: Option<nat>)
      requires Valid() && dir in objects
      modifies this`objects, this`nextId
      ensures Valid()
      ensures r.Some? <==> CanAdd(old(objects), dir, fileName)
      ensures r.Some? ==> r.value == old(nextId) && nextId == old(nextId) + 1 &&
                          objects == AddChild(old(objects), dir, EscapePath(fileName).value, r.value, File)
      ensures r.Some? ==> KeysOut(objects[r.value].name, |PathKeys|)
      ensures r.None? ==> objects == old(objects) && nextId == old(nextId)
    {
      r := Add(dir, fileName, File);
    }

    /** `CreateDirectory` on the object `dir`. */
    method CreateDirectory(dir: nat, directoryName: NullableString) returns (r: Option<nat>)
      requires Valid() && dir in objects
      modifies this`objects, this`nextId
      ensures Valid()
      ensures r.Some? <==> CanAdd(old(objects), dir, directoryName)
      ensures r.Some? ==> r.value == old(nextId) && nextId == old(nextId) + 1 &&
                          objects == AddChild(old(objects), dir, EscapePath(directoryName).value, r.value, Directory)
      ensures r.Some? ==> KeysOut(objects[r.value].name, |PathKeys|)
      ensures r.None? ==> objects == old(objects) && nextId == old(nextId)
    {
      r := Add(dir, directoryName, Directory);
    }

    /** What `CreateFile` and `CreateDirectory` share: escape the name and file a new object under it. */
    method Add(dir: nat, name: NullableString, kind: Kind) returns (r: Option<nat>)
      requires Valid() && dir in objects
      modifies this`objects, this`nextId
      ensures Valid()
      ensures r.Some? <==> CanAdd(old(objects), dir, name)
      ensures r.Some? ==> r.value == old(nextId) && nextId == old(nextId) + 1 &&
                          objects == AddChild(old(objects), dir, EscapePath(name).value, r.value, kind)
      ensures r.Some? ==> KeysOut(objects[r.value].name, |PathKeys|)
      ensures r.None? ==> objects == old(objects) && nextId == old(nextId)
    {
      r := None;
      if objects[dir].kind == Directory && name.Some? {
        var key := EscapePath(name).value;
        EscapePathEmpty(name.value);
        if |key| > 0 && key !in objects[dir].children {
          KeyHasNoSlash(name.value);
          EscapePathLeavesNoKey(name.value);
          AddKeepsState(objects, nextId, currentDirectoryPath, currentDirectory, dir, key, kind);
          objects := AddChild(objects, dir, key, nextId, kind);
          r := Some(nextId);
          nextId := nextId + 1;
        }
      }
    }

    /** `DeleteChild` on the object `dir`: escapes the name and removes that key when the flags allow. */
    method DeleteChild(dir: nat, name: NullableString) returns (r: bool)
      requires Valid() && dir in objects
      modifies this`objects
      ensures Valid()
      ensures r == (name.Some? && name.value != [] && RemovableChild(old(objects), dir, EscapePath(name).value))
      ensures objects == if r then RemoveChild(old(objects), dir, EscapePath(name).value) else old(objects)
    {
      r := false;
      if name.Some? {
        var key := EscapePath(name).value;
        EscapePathEmpty(name.value);
        if |key| > 0 && RemovableChild(objects, dir, key) {
          RemoveChildWellFormed(objects, dir, key);
          SameLinksKeepState(objects, RemoveChild(objects, dir, key), nextId, currentDirectoryPath, currentDirectory);
          objects := RemoveChild(objects, dir, key);
          r := true;
        }
      }
    }

    /** `Delete` as written: the parent's `DeleteChild` with the object's name, which escapes it once more. */
    method Delete(id: nat) returns (r: bool)
      requires Valid() && id in objects
      modifies this`objects
      ensures Valid()
      ensures var p := old(objects)[id].parent;
              r == (p.Some? && p.value in old(objects) && RemovableChild(old(objects), p.value, EscapePath(Some(old(objects)[id].name)).value))
      ensures r ==> objects == RemoveChild(old(objects), old(objects)[id].parent.value, EscapePath(Some(old(objects)[id].name)).value)
      ensures !r ==> objects == old(objects)
    {
      if objects[id].parent.None? {
        r := false;
      } else {
        assert id != RootId;
        assert ParentOk(objects, id);
        r := DeleteChild(objects[id].parent.value, Some(objects[id].name));
      }
    }

    /** The corrected `Delete`: the parent removes the object's own key, when `CanDeleteSelf` holds and the
        object is still filed there. */
    method DeleteSelf(id: nat) returns (r: bool)
      requires Valid() && id in objects
      modifies this`objects
      ensures Valid()
      ensures r == (CanDeleteSelf(old(objects), id) && Attached(old(objects), id))
      ensures r ==> objects == RemoveChild(old(objects), old(objects)[id].parent.value, old(objects)[id].name)
      ensures !r ==> objects == old(objects)
    {
      r := false;
      if CanDeleteSelf(objects, id) && Attached(objects, id) {
        var p := objects[id].parent.value;
        RemoveChildWellFormed(objects, p, objects[id].name);
        SameLinksKeepState(objects, RemoveChild(objects, p, objects[id].name), nextId, currentDirectoryPath, currentDirectory);
        objects := RemoveChild(objects, p, objects[id].name);
        r := true;
      }
    }

    /** `Read`: a file gives its text; every other object fails with the empty text. */
    function Read(id: nat): (r: (bool, string))
      requires id in objects
      reads this
      ensures r.0 <==> objects[id].kind.CanRead()
      ensures r.0 ==> r.1 == objects[id].content
      ensures !r.0 ==> r.1 == ""
    {
      if objects[id].kind == File then (true, objects[id].content) else (false, "")
    }

    /** `Write`: only a file takes a text, and only a given one; reading it back gives that text. */
    method Write(id: nat, content: NullableString) returns (r: bool)
      requires Valid() && id in objects
      modifies this`objects
      ensures Valid()
      ensures r == (old(objects)[id].kind == File && content.Some?)
      ensures objects == if r then SetContent(old(objects), id, content.value) else old(objects)
      ensures r ==> Read(id) == (true, content.value)
    {
      r := false;
      if objects[id].kind == File && content.Some? {
        SetContentWellFormed(objects, id, content.value);
        SameLinksKeepState(objects, SetContent(objects, id, content.value), nextId, currentDirectoryPath, currentDirectory);
        objects := SetContent(objects, id, content.value);
        r := true;
      }
    }
  }

  // ---------------------------------------------------------------------------------------------
  // The console

  /** The character that ends a typed command. */
  const LineBreak: char := '\n'

  /** Typing text in two pieces executes the same lines and leaves the same unfinished line as typing it at
      once: the lines completed by `more` follow those completed by `text`. */
  lemma ReadInputInChunks(buffer: string, text: string, more: string)
    ensures var lines := Split(buffer + text, LineBreak);
            lines[..|lines| - 1] + Split(lines[|lines| - 1] + more, LineBreak) == Split(buffer + text + more, LineBreak)
  {
    SplitInChunks(buffer + text, more, LineBreak);
  }

  /** Each result pairs a line with whether executing it succeeds, in the order of the lines. */
  predicate Reports(o: Objects, current: nat, run: (nat, string) -> bool, lines: seq<string>, results: seq<(string, bool)>)
    requires WellFormed(o) && current in o
  {
    |results| <= |lines| && forall i :: 0 <= i < |results| ==> results[i] == (lines[i], Executes(o, current, Some(lines[i]), run))
  }

  /** One more line executed extends the report. */
  lemma ReportsSnoc(o: Objects, current: nat, run: (nat, string) -> bool, lines: seq<string>, results: seq<(string, bool)>, ok: bool)
    requires WellFormed(o) && current in o && Reports(o, current, run, lines, results) && |results| < |lines|
    requires ok == Executes(o, current, Some(lines[|results|]), run)
    ensures Reports(o, current, run, lines, results + [(lines[|results|], ok)])
  {
  }

  class Console {
    /** `input`, the text typed since the last line break. */
    var input: string
    const shell: Shell

    constructor()
      ensures fresh(shell) && shell.Valid() && input == ""
    {
      shell := new Shell();
      input := "";
    }

    /** `ReadInput`: the buffered text and the new text are split into lines; the last, unfinished line is
        kept, and every completed one is executed in order. The result pairs each executed line with
        whether it succeeded, which is what the console prints. */
    method ReadInput(text: NullableString, run: (nat, string) -> bool) returns (results: seq<(string, bool)>)
      requires shell.Valid()
      modifies this`input
      ensures text.None? || text.value == [] ==> results == [] && input == old(input)
      ensures text.Some? && text.value != [] ==>
                var lines := Split(old(input) + text.value, LineBreak);
                && input == lines[|lines| - 1] && |results| == |lines| - 1
                && Reports(shell.objects, shell.currentDirectoryPath, run, lines, results)
    {
      results := [];
      if text.Some? && |text.value| > 0 {
        var lines := Split(input + text.value, LineBreak);
        input := lines[|lines| - 1];
        var index := 0;
        while index < |lines| - 1
          invariant 0 <= index <= |lines| - 1 && |results| == index && input == lines[|lines| - 1]
          invariant Reports(shell.objects, shell.currentDirectoryPath, run, lines, results)
        {
          var ok := shell.Execute(Some(lines[index]), run);
          ReportsSnoc(shell.objects, shell.currentDirectoryPath, run, lines, results, ok);
          results := results + [(lines[index], ok)];
          index := index + 1;
        }
      }
    }
  }
}
