/**
 * The .NET string operations the programs rely on (`Trim`, `Split`, `Join`, `Replace`, `Contains`,
 * `IndexOfAny`, `ToLower`), stated over `seq<char>`.
 */
module Text {
  import opened Wrappers
  import opened Seqs

  /** A C# `string` reference, which may be `null`. */
  type NullableString = Option<string>

  /** `Environment.NewLine`, which `StringBuilder.AppendLine` appends, on Windows, where the game runs. */
  const NewLine: string := "\r\n"

  /** `char.IsWhiteSpace`: the Unicode space separators, the line and paragraph separators,
      and the whitespace control characters U+0009..U+000D and U+0085. */
  predicate IsWhiteSpace(c: char) {
    || ('\t' <= c <= '\r') || c == ' ' || c == '\U{0085}' || c == '\U{00A0}' || c == '\U{1680}'
    || ('\U{2000}' <= c <= '\U{200A}') || c == '\U{2028}' || c == '\U{2029}' || c == '\U{202F}'
    || c == '\U{205F}' || c == '\U{3000}'
  }

  /** `string.IsNullOrEmpty`. */
  predicate IsNullOrEmpty(s: NullableString) {
    s.None? || s.value == []
  }

  /** `string.IsNullOrWhiteSpace`. */
  predicate IsNullOrWhiteSpace(s: NullableString) {
    s.None? || forall i :: 0 <= i < |s.value| ==> IsWhiteSpace(s.value[i])
  }

  /** The index of the first character at or after `k` that `drop` keeps, `|s|` if there is none: where
      `Trim` starts its result. */
  function SkipFrom(s: string, drop: char -> bool, k: nat): (a: nat)
    requires k <= |s|
    ensures k <= a <= |s| && (a < |s| ==> !drop(s[a]))
    ensures forall i :: k <= i < a ==> drop(s[i])
    decreases |s| - k
  {
    if k < |s| && drop(s[k]) then SkipFrom(s, drop, k + 1) else k
  }

  /** The index just past the last character before `k` and from `a` on that `drop` keeps, `a` if there is
      none: where `Trim` ends its result. */
  function BackFrom(s: string, drop: char -> bool, a: nat, k: nat): (b: nat)
    requires a <= k <= |s|
    ensures a <= b <= k && (b > a ==> !drop(s[b - 1]))
    ensures forall i :: b <= i < k ==> drop(s[i])
    decreases k
  {
    if k > a && drop(s[k - 1]) then BackFrom(s, drop, a, k - 1) else k
  }

  /** How many leading characters `TrimBy` drops. */
  function Lead(s: string, drop: char -> bool): (a: nat)
    ensures a <= |s|
  {
    SkipFrom(s, drop, 0)
  }

  /** Drops the leading and the trailing characters that satisfy `drop`: the result is the piece of `s`
      starting after the dropped prefix, it neither starts nor ends with a dropped character, and
      everything cut off on either side is dropped. */
  function TrimBy(s: string, drop: char -> bool): (r: string)
    ensures var a := Lead(s, drop); a + |r| <= |s| && r == s[a..a + |r|]
    ensures forall i :: 0 <= i < Lead(s, drop) ==> drop(s[i])
    ensures forall i :: Lead(s, drop) + |r| <= i < |s| ==> drop(s[i])
    ensures r == [] || (!drop(r[0]) && !drop(r[|r| - 1]))
  {
    var a := Lead(s, drop);
    s[a..BackFrom(s, drop, a, |s|)]
  }

  /** `string.Trim()`: removes leading and trailing white space. */
  function Trim(s: string): string {
    TrimBy(s, IsWhiteSpace)
  }

  /** `string.Trim(char[])`: removes leading and trailing characters of `chars`. */
  function TrimChars(s: string, chars: set<char>): string {
    TrimBy(s, c => c in chars)
  }

  /** Trimming leaves a string without droppable characters unchanged. */
  lemma TrimByIdentity(s: string, drop: char -> bool)
    requires forall i :: 0 <= i < |s| ==> !drop(s[i])
    ensures TrimBy(s, drop) == s
  {
    assert Lead(s, drop) == 0;
    assert s[0..|s|] == s;
  }

  /** Trimming leaves a string that neither starts nor ends with white space unchanged. */
  lemma TrimKeepsEnds(s: string)
    requires s != [] && !IsWhiteSpace(s[0]) && !IsWhiteSpace(s[|s| - 1])
    ensures Trim(s) == s
  {
    assert Lead(s, IsWhiteSpace) == 0;
    assert s[0..|s|] == s;
  }

  /** `string.Join(sep, parts)`. */
  function Join(parts: seq<string>, sep: string): (r: string)
    ensures |parts| == 1 ==> r == parts[0]
  {
    if |parts| == 0 then ""
    else if |parts| == 1 then parts[0]
    else parts[0] + sep + Join(parts[1..], sep)
  }

  /** Joining one more piece appends the separator and the piece. */
  lemma {:induction false} JoinSnoc(init: seq<string>, last: string, sep: string)
    requires init != []
    ensures Join(init + [last], sep) == Join(init, sep) + sep + last
  {
    if |init| > 1 {
      assert (init + [last])[1..] == init[1..] + [last];
      JoinSnoc(init[1..], last, sep);
    }
  }

  /** `string.Split(char)`: the pieces between the occurrences of `d`, empty pieces included. */
  function Split(s: string, d: char): (parts: seq<string>)
    ensures |parts| >= 1
    ensures forall i :: 0 <= i < |parts| ==> d !in parts[i]
    ensures Join(parts, [d]) == s
    decreases |s|
  {
    if d !in s then [s]
    else
      var k := FirstIndexOf(s, d);
      var rest := Split(s[k + 1..], d);
      assert ([s[..k]] + rest)[1..] == rest;
      assert s == s[..k] + [d] + s[k + 1..];
      [s[..k]] + rest
  }

  /** Splitting undoes joining when no part contains the delimiter. */
  lemma {:induction false} SplitJoin(parts: seq<string>, d: char)
    requires |parts| >= 1
    requires forall i :: 0 <= i < |parts| ==> d !in parts[i]
    ensures Split(Join(parts, [d]), d) == parts
  {
    if |parts| > 1 {
      var s := Join(parts, [d]);
      var k := |parts[0]|;
      var tail := Join(parts[1..], [d]);
      assert s == parts[0] + [d] + tail;
      assert s[..k] == parts[0] && s[k] == d && s[k + 1..] == tail;
      FirstIndexAt(s, d, k);
      SplitJoin(parts[1..], d);
      assert Split(s, d) == [s[..k]] + Split(s[k + 1..], d);
      assert parts == [parts[0]] + parts[1..];
    }
  }

  /** The first piece of a split is the text up to the first delimiter, and the delimiter follows it
      whenever there is more. */
  lemma SplitHead(s: string, d: char)
    ensures Split(s, d)[0] <= s
    ensures |Split(s, d)[0]| < |s| ==> s[|Split(s, d)[0]|] == d
  {
    if d in s {
      var k := FirstIndexOf(s, d);
      assert Split(s, d)[0] == s[..k];
    }
  }

  /** Text that does not end in the middle of a piece splits into the pieces already seen followed by the
      split of the last piece with what comes next: pieces fed in two chunks are the pieces of the whole. */
  lemma SplitAppend(init: seq<string>, last: string, more: string, d: char)
    requires forall i :: 0 <= i < |init| ==> d !in init[i]
    requires d !in last
    ensures Split(Join(init + [last], [d]) + more, d) == init + Split(last + more, d)
  {
    var after := Split(last + more, d);
    var all := init + after;
    var whole := Join(init + [last], [d]) + more;
    if init != [] {
      JoinAppend(init, after, [d]);
      JoinAppend(init, [last], [d]);
      assert Join(after, [d]) == last + more;
      assert Join(all, [d]) == whole;
    } else {
      assert init + [last] == [last];
      assert all == after;
    }
    assert forall i :: 0 <= i < |all| ==> d !in all[i] by {
      forall i | 0 <= i < |all|
        ensures d !in all[i]
      {
        if i >= |init| {
          assert all[i] == after[i - |init|];
        }
      }
    }
    SplitJoin(all, d);
    assert Split(whole, d) == all;
  }

  /** Splitting a text and then the last piece with more text gives the pieces of the whole. */
  lemma SplitInChunks(s: string, more: string, d: char)
    ensures var parts := Split(s, d);
            parts[..|parts| - 1] + Split(parts[|parts| - 1] + more, d) == Split(s + more, d)
  {
    var parts := Split(s, d);
    var n := |parts|;
    var init := parts[..n - 1];
    assert parts == init + [parts[n - 1]];
    forall i | 0 <= i < |init|
      ensures d !in init[i]
    {
      assert init[i] == parts[i];
    }
    SplitAppend(init, parts[n - 1], more, d);
  }

  /** Pieces between an empty piece in front and one behind split back out of their join. */
  lemma SplitFramed(names: seq<string>, d: char)
    requires forall i :: 0 <= i < |names| ==> d !in names[i]
    ensures Split(Join([""] + names + [""], [d]), d) == [""] + names + [""]
  {
    var parts := [""] + names + [""];
    forall i | 0 <= i < |parts|
      ensures d !in parts[i]
    {
      if 0 < i < |parts| - 1 {
        assert parts[i] == names[i - 1];
      }
    }
    SplitJoin(parts, d);
  }

  /** Joining two runs of pieces joins each and puts one separator between them. */
  lemma {:induction false} JoinAppend(a: seq<string>, b: seq<string>, sep: string)
    requires a != [] && b != []
    ensures Join(a + b, sep) == Join(a, sep) + sep + Join(b, sep)
    decreases |a|
  {
    assert a + b == [a[0]] + (a[1..] + b);
    JoinCons(a[0], a[1..] + b, sep);
    if |a| > 1 {
      JoinAppend(a[1..], b, sep);
      JoinCons(a[0], a[1..], sep);
      assert a == [a[0]] + a[1..];
    }
  }

  /** The last occurrence of `d` splits a text in one way only: what follows it and what precedes it. */
  lemma SplitAtLast(a: string, b: string, c: string, e: string, d: char)
    requires a + [d] + b == c + [d] + e && d !in b && d !in e
    ensures a == c && b == e
  {
    var s := a + [d] + b;
    assert s[|a|] == d && s[|c|] == d;
    assert forall k :: |c| < k < |s| ==> s[k] == e[k - |c| - 1];
    assert forall k :: |a| < k < |s| ==> s[k] == b[k - |a| - 1];
    assert |a| == |c|;
    assert a == s[..|a|] && c == s[..|c|];
    assert b == s[|a| + 1..] && e == s[|c| + 1..];
  }

  /** Joining a piece in front adds it and one separator. */
  lemma JoinCons(x: string, rest: seq<string>, sep: string)
    requires rest != []
    ensures Join([x] + rest, sep) == x + sep + Join(rest, sep)
  {
    assert ([x] + rest)[1..] == rest;
  }

  /** The first piece ends at the first delimiter. */
  lemma SplitAtFirst(x: string, tail: string, d: char)
    requires d !in x
    ensures Split(x + [d] + tail, d) == [x] + Split(tail, d)
  {
    var s := x + [d] + tail;
    assert s[..|x|] == x && s[|x|] == d && s[|x| + 1..] == tail;
    FirstIndexAt(s, d, |x|);
  }

  /** The first occurrence is at `k` when `s[k]` is `x` and the part before it does not hold `x`. */
  lemma FirstIndexAt<T>(s: seq<T>, x: T, k: nat)
    requires k < |s| && s[k] == x && x !in s[..k]
    ensures x in s && FirstIndexOf(s, x) == k
  {
  }

  /** True when `sub` occurs in `s` (`string.Contains`). */
  predicate Contains(s: string, sub: string)
    decreases |s|
  {
    |sub| <= |s| && (s[..|sub|] == sub || Contains(s[1..], sub))
  }

  /** `Contains` for one character is sequence membership. */
  lemma {:induction false} ContainsChar(s: string, c: char)
    ensures Contains(s, [c]) <==> c in s
  {
    if s != [] {
      ContainsChar(s[1..], c);
      assert s == [s[0]] + s[1..];
    }
  }

  /** `string.Replace(oldValue, newValue)`: replaces the non-overlapping occurrences of `pattern`, scanning from the left. */
  function Replace(s: string, pattern: string, replacement: string): (r: string)
    requires pattern != []
    ensures !Contains(s, pattern) ==> r == s
    decreases |s|
  {
    if |s| < |pattern| then s
    else if s[..|pattern|] == pattern then replacement + Replace(s[|pattern|..], pattern, replacement)
    else [s[0]] + Replace(s[1..], pattern, replacement)
  }

  /** An occurrence of `sub` puts its first character in `s`. */
  lemma {:induction false} ContainsFirstChar(s: string, sub: string)
    requires sub != [] && Contains(s, sub)
    ensures sub[0] in s
    decreases |s|
  {
    if s[..|sub|] == sub {
      assert s[0] == sub[0];
    } else {
      ContainsFirstChar(s[1..], sub);
    }
  }

  /** Replacing a pattern by itself changes nothing. */
  lemma {:induction false} ReplaceSame(s: string, pattern: string)
    requires pattern != []
    ensures Replace(s, pattern, pattern) == s
    decreases |s|
  {
    if |s| >= |pattern| {
      if s[..|pattern|] == pattern {
        ReplaceSame(s[|pattern|..], pattern);
        assert s == s[..|pattern|] + s[|pattern|..];
      } else {
        ReplaceSame(s[1..], pattern);
        assert s == [s[0]] + s[1..];
      }
    }
  }

  /** Replacing cannot bring in a character that neither the text nor the replacement holds. */
  lemma {:induction false} ReplaceKeepsOut(s: string, pattern: string, replacement: string, x: char)
    requires pattern != [] && x !in s && x !in replacement
    ensures x !in Replace(s, pattern, replacement)
    decreases |s|
  {
    if |s| >= |pattern| {
      if s[..|pattern|] == pattern {
        assert forall i :: 0 <= i < |s[|pattern|..]| ==> s[|pattern|..][i] == s[i + |pattern|];
        ReplaceKeepsOut(s[|pattern|..], pattern, replacement, x);
      } else {
        assert forall i :: 0 <= i < |s[1..]| ==> s[1..][i] == s[i + 1];
        ReplaceKeepsOut(s[1..], pattern, replacement, x);
      }
    }
  }

  /** Replacing a character by a text without it leaves none of it. */
  lemma {:induction false} ReplaceCharOut(s: string, c: char, replacement: string)
    requires c !in replacement
    ensures c !in Replace(s, [c], replacement)
    decreases |s|
  {
    if s != [] {
      ReplaceCharOut(s[1..], c, replacement);
      if s[..1] != [c] {
        assert s[0] != c;
      }
    }
  }

  /** Replacing a character by a nonempty text never shortens the text, and lengthens it by at least
      `|replacement| - 1` when the character occurs. */
  lemma {:induction false} ReplaceCharGrows(s: string, c: char, replacement: string)
    requires replacement != []
    ensures |Replace(s, [c], replacement)| >= |s| + (if c in s then |replacement| - 1 else 0)
    decreases |s|
  {
    if s != [] {
      ReplaceCharGrows(s[1..], c, replacement);
      assert s[..1] == [s[0]];
      assert s == [s[0]] + s[1..];
    }
  }

  /** Replacing one character keeps every other character that occurs. */
  lemma {:induction false} ReplaceCharKeeps(s: string, c: char, replacement: string, x: char)
    requires x in s && x != c
    ensures x in Replace(s, [c], replacement)
    decreases |s|
  {
    assert s[..1] == [s[0]];
    if s[0] != x {
      assert s == [s[0]] + s[1..];
      ReplaceCharKeeps(s[1..], c, replacement, x);
    }
  }

  /** Replaces every character `c` of `s` by `f(c)`. */
  function FlatMap(s: string, f: char -> string): string {
    if s == [] then [] else f(s[0]) + FlatMap(s[1..], f)
  }

  lemma {:induction false} FlatMapAppend(s: string, t: string, f: char -> string)
    ensures FlatMap(s + t, f) == FlatMap(s, f) + FlatMap(t, f)
  {
    if s == [] {
      assert s + t == t;
    } else {
      assert (s + t)[0] == s[0];
      assert (s + t)[1..] == s[1..] + t;
      FlatMapAppend(s[1..], t, f);
    }
  }

  /** Replacing a one-character string is mapping that character. */
  lemma {:induction false} ReplaceOneChar(s: string, c: char, replacement: string)
    ensures Replace(s, [c], replacement) == FlatMap(s, x => if x == c then replacement else [x])
  {
    if s != [] {
      ReplaceOneChar(s[1..], c, replacement);
      assert s[..1] == [s[0]];
    }
  }

  /** A character of a `FlatMap` result comes from the image of some input character. */
  lemma {:induction false} FlatMapChars(s: string, f: char -> string, x: char)
    requires x in FlatMap(s, f)
    ensures exists i :: 0 <= i < |s| && x in f(s[i])
  {
    if x in f(s[0]) {
    } else {
      FlatMapChars(s[1..], f, x);
      var i :| 0 <= i < |s[1..]| && x in f(s[1..][i]);
      assert x in f(s[i + 1]);
    }
  }

  /** `string.IndexOfAny(chars, start)`: the first index at or after `start` holding one of `chars`, or -1. */
  function IndexOfAny(s: string, chars: set<char>, start: nat): (r: int)
    requires start <= |s|
    ensures r == -1 || (start <= r < |s| && s[r] in chars)
    ensures forall k :: start <= k < |s| && (r == -1 || k < r) ==> s[k] !in chars
    decreases |s| - start
  {
    if start == |s| then -1
    else if s[start] in chars then start
    else IndexOfAny(s, chars, start + 1)
  }

  /** `string.ToLower()` on the ASCII letters; other characters are kept. */
  function ToLower(s: string): (r: string)
    ensures |r| == |s|
    ensures forall i :: 0 <= i < |s| ==> r[i] == LowerChar(s[i])
  {
    if s == [] then [] else [LowerChar(s[0])] + ToLower(s[1..])
  }

  function LowerChar(c: char): char {
    if 'A' <= c <= 'Z' then (c as int + 32) as char else c
  }

  /** The decimal digits of `n`, most significant first (`int.ToString()` for non-negative values). */
  function NatToString(n: nat): (r: string)
    ensures |r| >= 1
    ensures forall i :: 0 <= i < |r| ==> '0' <= r[i] <= '9'
    ensures DigitsValue(r) == n
  {
    if n < 10 then [Digit(n)]
    else
      var r := NatToString(n / 10) + [Digit(n % 10)];
      assert r[..|r| - 1] == NatToString(n / 10);
      r
  }

  function Digit(d: nat): (c: char)
    requires d < 10
  {
    (48 + d) as char
  }

  /** The number a string of decimal digits denotes. */
  function DigitsValue(s: string): int
    requires forall i :: 0 <= i < |s| ==> '0' <= s[i] <= '9'
  {
    if s == [] then 0 else 10 * DigitsValue(s[..|s| - 1]) + (s[|s| - 1] as int - 48)
  }

  /** `int.ToString()`: a minus sign before the digits of a negative value. */
  function IntToString(i: int): (r: string)
    ensures |r| >= 1
    ensures (r[0] == '-') <==> i < 0
  {
    if i < 0 then "-" + NatToString(-i) else NatToString(i)
  }
}
