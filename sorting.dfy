/**
 * Ordinal ordering of strings and the sorting the help topics rely on. `List.Sort` with
 * `string.CompareTo` is culture-aware in .NET; the model orders strings by character code.
 */
module Sorting {

  /** `a` comes before or equals `b`: a prefix of it, or smaller at the first difference. */
  predicate OrdinalLessEq(a: string, b: string)
    decreases |a|
  {
    a == [] || (b != [] && (a[0] < b[0] || (a[0] == b[0] && OrdinalLessEq(a[1..], b[1..]))))
  }

  /** Any two strings are ordered one way or the other. */
  lemma {:induction false} OrdinalTotal(a: string, b: string)
    ensures OrdinalLessEq(a, b) || OrdinalLessEq(b, a)
    decreases |a|
  {
    if a != [] && b != [] && a[0] == b[0] {
      OrdinalTotal(a[1..], b[1..]);
    }
  }

  /** Two strings ordered both ways are equal. */
  lemma {:induction false} OrdinalAntisymmetric(a: string, b: string)
    requires OrdinalLessEq(a, b) && OrdinalLessEq(b, a)
    ensures a == b
    decreases |a|
  {
    if a != [] {
      OrdinalAntisymmetric(a[1..], b[1..]);
      assert a == [a[0]] + a[1..] && b == [b[0]] + b[1..];
    }
  }

  /** Each element is ordered before its successor. */
  predicate Sorted(s: seq<string>) {
    forall i :: 0 < i < |s| ==> OrdinalLessEq(s[i - 1], s[i])
  }

  /** Puts `x` into the sorted `s` before the first element it precedes. */
  function Insert(x: string, s: seq<string>): (r: seq<string>)
    requires Sorted(s)
    ensures Sorted(r) && multiset(r) == multiset(s) + multiset{x}
    ensures r != [] && (r[0] == x || (s != [] && r[0] == s[0]))
  {
    if s == [] then [x]
    else if OrdinalLessEq(x, s[0]) then [x] + s
    else
      OrdinalTotal(x, s[0]);
      var rest := Insert(x, s[1..]);
      assert s == [s[0]] + s[1..];
      [s[0]] + rest
  }

  /** The elements of `keys` in ordinal order, each once. */
  method SortKeys(keys: set<string>) returns (r: seq<string>)
    ensures Sorted(r) && |r| == |keys|
    ensures forall k :: k in r <==> k in keys
    ensures forall i, j :: 0 <= i < j < |r| ==> r[i] != r[j]
  {
    r := [];
    var rest := keys;
    while rest != {}
      invariant Sorted(r)
      invariant rest !! (set k | k in multiset(r))
      invariant forall k :: k in multiset(r) ==> multiset(r)[k] == 1
      invariant forall k :: k in keys <==> k in rest || k in multiset(r)
      invariant |r| + |rest| == |keys|
      decreases |rest|
    {
      var k :| k in rest;
      r := Insert(k, r);
      rest := rest - {k};
    }
    forall i, j | 0 <= i < j < |r|
      ensures r[i] != r[j]
    {
      if r[i] == r[j] {
        MultisetTwice(r, i, j);
      }
    }
  }

  lemma MultisetTwice(s: seq<string>, i: nat, j: nat)
    requires i < j < |s| && s[i] == s[j]
    ensures multiset(s)[s[i]] >= 2
  {
    var x := s[i];
    assert s == s[..i] + [x] + s[i + 1..j] + [x] + s[j + 1..];
    assert multiset(s) == multiset(s[..i]) + multiset{x} + multiset(s[i + 1..j]) + multiset{x} + multiset(s[j + 1..]);
  }
}
