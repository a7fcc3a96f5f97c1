/**
 * `JSON`: the incremental, lenient parser of JSON-like text. Each step scans forward from the last
 * consumed character for the next delimiter of the active set, updates the stack of open containers,
 * and then asks the caller's pause predicate whether to yield.
 *
 * The coroutine of the source is modelled as an explicit scanner state (`ScanState`), the pure step
 * `Scan` over it, the loop `Run` that a call of `MoveNext` performs, and the class `Json` that holds the
 * state between calls.
 */
module JsonParser {
  import opened Wrappers
  import opened Text
  import opened Errors
  import opened JsonElements
  import opened Ints

  /** The part of the grammar the scanner expects next (`JSON.JSONPart`; the scanner uses only these two
      of its four members). */
  datatype JsonPart = KEY | VALUE

  /** The characters trimmed from keys and primitive values: quotes, apostrophes and white space. */
  const TrimSet: set<char> := {'"', '\'', ' ', '\n', '\r', '\t', '\U{000C}'}

  /** The delimiters of key mode and of value mode, in the order the error message lists them. */
  const KeyDelims: seq<char> := ['}', ':']
  const ValueDelims: seq<char> := ['{', '}', ',', '[', ']']

  function Delims(part: JsonPart): seq<char> {
    if part == KEY then KeyDelims else ValueDelims
  }

  function CharSet(cs: seq<char>): (r: set<char>)
    ensures forall c :: c in r <==> c in cs
  {
    set i | 0 <= i < |cs| :: cs[i]
  }

  /** Everything the coroutine keeps between two delimiters: the index of the last consumed character,
      the expected part, the pending key (`None` is C#'s `null`), the open containers with the innermost
      last, and the container closed most recently. */
  datatype ScanState = ScanState(
    lastCharIndex: int,
    expected: JsonPart,
    key: NullableString,
    stack: seq<Element>,
    lastNested: Option<Element>)

  /** The state at the start of `Parse`. */
  const Initial: ScanState := ScanState(-1, VALUE, Some(""), [], None)

  /** Every open entry is a container, and each one below the top already holds, as its last child, the
      container above it. */
  predicate StackOk(stack: seq<Element>) {
    && (forall i :: 0 <= i < |stack| ==> stack[i].IsContainer())
    && (forall i :: 0 <= i < |stack| - 1 ==> stack[i].ChildCount() > 0)
  }

  /** The states the scanner can be in while parsing `s`. */
  predicate Scanning(s: string, st: ScanState) {
    -1 <= st.lastCharIndex && (st.lastCharIndex < |s| || st.lastCharIndex == -1) && StackOk(st.stack)
  }

  /** `JsonStack.Peek().Add(child)`: adds to the innermost container; an empty stack throws. */
  function AddToTop(stack: seq<Element>, child: Element): (r: Result<seq<Element>, Exception>)
    requires StackOk(stack)
    ensures stack == [] ==> r == Err(InvalidOperationException(EmptyStack))
    ensures r.Ok? ==>
      && |r.value| == |stack| && r.value[..|stack| - 1] == stack[..|stack| - 1]
      && AddChild(stack[|stack| - 1], child) == Ok(r.value[|stack| - 1]) && StackOk(r.value)
    ensures r.Err? ==> r.error in {InvalidOperationException(EmptyStack), ArgumentNullException("key"),
      ArgumentException(DuplicateKey)}
  {
    if stack == [] then Err(InvalidOperationException(EmptyStack))
    else
      match AddChild(stack[|stack| - 1], child)
      case Err(e) => Err(e)
      case Ok(top) => Ok(stack[..|stack| - 1] + [top])
  }

  /** `JsonStack.Pop()` on a non-empty stack: the innermost container leaves the stack and its finished
      contents become its parent's last child. */
  function PopStack(stack: seq<Element>): (r: (seq<Element>, Element))
    requires stack != [] && StackOk(stack)
    ensures r.1 == stack[|stack| - 1] && |r.0| == |stack| - 1 && StackOk(r.0)
    ensures |r.0| > 0 ==>
      && r.0[..|r.0| - 1] == stack[..|stack| - 2]
      && r.0[|r.0| - 1] == ReplaceLastChild(stack[|stack| - 2], r.1)
  {
    var top := stack[|stack| - 1];
    var rest := stack[..|stack| - 1];
    if rest == [] then ([], top)
    else (rest[..|rest| - 1] + [ReplaceLastChild(rest[|rest| - 1], top)], top)
  }

  /** A `}` or `]` directly followed by a comma consumes the comma too. */
  function SkipComma(s: string, charIndex: nat): (r: nat)
    requires charIndex < |s|
    ensures charIndex <= r < |s|
    ensures r == charIndex + 1 <==> charIndex < |s| - 1 && s[charIndex + 1] == ','
  {
    if charIndex < |s| - 1 && s[charIndex + 1] == ',' then charIndex + 1 else charIndex
  }

  /** The mode update after every value-mode delimiter: outside any container or inside a list the next
      thing is a value without a key, inside an object it is a key. */
  function AfterValue(st: ScanState): ScanState {
    if st.stack == [] || st.stack[|st.stack| - 1].List? then st.(key := None, expected := VALUE)
    else st.(expected := KEY)
  }

  /** The value-mode cases for the delimiter at `charIndex`, before the mode update. */
  function ValueCase(s: string, st: ScanState, charIndex: nat): (r: Result<ScanState, Exception>)
    requires Scanning(s, st) && st.lastCharIndex < charIndex < |s|
    ensures r.Ok? ==> charIndex <= r.value.lastCharIndex < |s| && StackOk(r.value.stack)
    ensures r.Err? ==> r.error in {InvalidOperationException(EmptyStack), ArgumentNullException("key"),
      ArgumentException(DuplicateKey)}
  {
    var found := s[charIndex];
    if found == '[' then
      var child := List(st.key, []);
      match AddToTop(st.stack, child)
      case Err(e) => Err(e)
      case Ok(stack) => Ok(st.(stack := stack + [child], lastCharIndex := charIndex))
    else if found == '{' then
      var child := Object(st.key, []);
      if st.stack == [] then Ok(st.(stack := [child], lastCharIndex := charIndex))
      else
        match AddToTop(st.stack, child)
        case Err(e) => Err(e)
        case Ok(stack) => Ok(st.(stack := stack + [child], lastCharIndex := charIndex))
    else
      var value := TrimChars(s[st.lastCharIndex + 1..charIndex], TrimSet);
      match AddToTop(st.stack, Primitive(st.key, Some(value)))
      case Err(e) => Err(e)
      case Ok(stack) =>
        if found == ',' then Ok(st.(stack := stack, lastCharIndex := charIndex))
        else
          var (rest, top) := PopStack(stack);
          Ok(st.(stack := rest, lastNested := Some(top), lastCharIndex := SkipComma(s, charIndex)))
  }

  /** The key-mode cases for the delimiter at `charIndex`. */
  function KeyCase(s: string, st: ScanState, charIndex: nat): (r: Result<ScanState, Exception>)
    requires Scanning(s, st) && st.lastCharIndex < charIndex < |s|
    ensures r.Ok? ==> charIndex <= r.value.lastCharIndex < |s| && StackOk(r.value.stack)
  {
    if s[charIndex] == ':' then
      Ok(st.(key := Some(TrimChars(s[st.lastCharIndex + 1..charIndex], TrimSet)), expected := VALUE,
             lastCharIndex := charIndex))
    else if st.stack == [] then Err(InvalidOperationException(EmptyStack))
    else
      var (rest, top) := PopStack(st.stack);
      Ok(st.(stack := rest, lastNested := Some(top), lastCharIndex := SkipComma(s, charIndex)))
  }

  /** One iteration of the loop of `Parse`: find the next delimiter of the expected set after the last
      consumed character (none left throws `UnexpectedCharacterException` with "EOF"), act on it, and
      move the cursor onto it (or onto the comma it consumed). */
  function Scan(s: string, st: ScanState): (r: Result<ScanState, Exception>)
    requires Scanning(s, st) && st.lastCharIndex < |s| - 1
    ensures r.Ok? ==> Scanning(s, r.value) && st.lastCharIndex < r.value.lastCharIndex
  {
    var delims := Delims(st.expected);
    var charIndex := IndexOfAny(s, CharSet(delims), st.lastCharIndex + 1);
    if charIndex == -1 then Err(UnexpectedCharacterException(delims, "EOF", st.lastCharIndex))
    else if st.expected == VALUE then
      match ValueCase(s, st, charIndex)
      case Err(e) => Err(e)
      case Ok(next) => Ok(AfterValue(next))
    else KeyCase(s, st, charIndex)
  }

  // ---------------------------------------------------------------------------------------------
  // What one step does

  /** The delimiter `Scan` acts on: the first character of the expected set after the cursor. */
  lemma ScanFindsNextDelimiter(s: string, st: ScanState)
    requires Scanning(s, st) && st.lastCharIndex < |s| - 1
    ensures var k := IndexOfAny(s, CharSet(Delims(st.expected)), st.lastCharIndex + 1);
      k != -1 ==>
        && st.lastCharIndex < k < |s| && s[k] in Delims(st.expected)
        && forall j :: st.lastCharIndex < j < k ==> s[j] !in Delims(st.expected)
  {
  }

  /** The step throws `UnexpectedCharacterException(expected set, "EOF", cursor)` exactly when no
      character of the expected set follows the cursor. */
  lemma ScanEof(s: string, st: ScanState)
    requires Scanning(s, st) && st.lastCharIndex < |s| - 1
    ensures Scan(s, st) == Err(UnexpectedCharacterException(Delims(st.expected), "EOF", st.lastCharIndex))
      <==> forall j :: st.lastCharIndex < j < |s| ==> s[j] !in Delims(st.expected)
  {
    var k := IndexOfAny(s, CharSet(Delims(st.expected)), st.lastCharIndex + 1);
    if k != -1 {
      assert s[k] in Delims(st.expected);
    }
  }

  /** In value mode, a `,`, `}` or `]` adds to the innermost container a primitive keyed by the pending
      key whose value is the text since the cursor, trimmed; `,` keeps the container open, `}` and `]`
      close it (and consume a comma right after them). */
  lemma ValueDelimiterAddsPrimitive(s: string, st: ScanState, k: nat)
    requires Scanning(s, st) && st.lastCharIndex < k < |s| && s[k] in {',', '}', ']'}
    requires st.stack != []
    requires AddChild(st.stack[|st.stack| - 1],
      Primitive(st.key, Some(TrimChars(s[st.lastCharIndex + 1..k], TrimSet)))).Ok?
    ensures var n := |st.stack|;
      var top := AddChild(st.stack[n - 1], Primitive(st.key, Some(TrimChars(s[st.lastCharIndex + 1..k], TrimSet)))).value;
      var filled := st.stack[..n - 1] + [top];
      ValueCase(s, st, k) == Ok(
        if s[k] == ',' then st.(stack := filled, lastCharIndex := k)
        else st.(stack := PopStack(filled).0, lastNested := Some(top), lastCharIndex := SkipComma(s, k)))
  {
    var n := |st.stack|;
    var child := Primitive(st.key, Some(TrimChars(s[st.lastCharIndex + 1..k], TrimSet)));
    var top := AddChild(st.stack[n - 1], child).value;
    assert AddToTop(st.stack, child) == Ok(st.stack[..n - 1] + [top]);
  }

  /** After a value-mode step the scanner expects a value with a null key when no container is open or the
      innermost one is a list, and a key when it is an object. */
  lemma ModeAfterValueStep(s: string, st: ScanState)
    requires Scanning(s, st) && st.lastCharIndex < |s| - 1 && st.expected == VALUE
    requires Scan(s, st).Ok?
    ensures var next := Scan(s, st).value;
      if next.stack == [] || next.stack[|next.stack| - 1].List? then next.expected == VALUE && next.key == None
      else next.expected == KEY && next.key == st.key
  {
  }

  /** In key mode, `:` makes the trimmed text before it the pending key and switches to value mode;
      `}` closes the innermost container, consuming a comma right after it, and stays in key mode. */
  lemma KeyModeStep(s: string, st: ScanState, k: nat)
    requires Scanning(s, st) && st.lastCharIndex < k < |s| && s[k] in KeyDelims && st.expected == KEY
    ensures s[k] == ':' ==> KeyCase(s, st, k) == Ok(st.(key := Some(TrimChars(s[st.lastCharIndex + 1..k], TrimSet)),
      expected := VALUE, lastCharIndex := k))
    ensures s[k] == '}' && st.stack == [] ==> KeyCase(s, st, k) == Err(InvalidOperationException(EmptyStack))
    ensures s[k] == '}' && st.stack != [] ==> KeyCase(s, st, k) == Ok(st.(stack := PopStack(st.stack).0,
      lastNested := Some(st.stack[|st.stack| - 1]), lastCharIndex := SkipComma(s, k), expected := KEY))
  {
  }

  /** `{` with no open container starts a new root that no parent receives; `[` always adds to the
      innermost container, so with none open it throws. */
  lemma OpeningOnEmptyStack(s: string, st: ScanState, k: nat)
    requires Scanning(s, st) && st.lastCharIndex < k < |s| && st.stack == []
    ensures s[k] == '{' ==> ValueCase(s, st, k) == Ok(st.(stack := [Object(st.key, [])], lastCharIndex := k))
    ensures s[k] == '[' ==> ValueCase(s, st, k) == Err(InvalidOperationException(EmptyStack))
  {
  }

  // ---------------------------------------------------------------------------------------------
  // The loop of one `MoveNext` call

  /** How a call of `MoveNext` ends: the pause predicate said yes after a step, the text was consumed
      (the final `yield return true`), or a step threw. Each carries the scanner state and the number of
      times the pause predicate has been asked. */
  datatype RunOutcome =
    | Paused(state: ScanState, calls: nat)
    | Finished(state: ScanState, calls: nat)
    | Failed(error: Exception, state: ScanState, calls: nat)

  /** The `while` loop of `Parse` from state `st`, where `pause(n)` is the answer the caller's
      `ShouldPause` gives the n-th time it is asked and `calls` is how often it was asked before. */
  function Run(s: string, st: ScanState, pause: nat -> bool, calls: nat): RunOutcome
    requires Scanning(s, st)
    decreases |s| - st.lastCharIndex
  {
    if st.lastCharIndex >= |s| - 1 then Finished(st, calls)
    else
      match Scan(s, st)
      case Err(e) => Failed(e, st, calls)
      case Ok(next) => if pause(calls) then Paused(next, calls + 1) else Run(s, next, pause, calls + 1)
  }

  /** Parsing from `st` to the end without ever pausing. */
  function Drive(s: string, st: ScanState): Result<ScanState, Exception>
    requires Scanning(s, st)
    decreases |s| - st.lastCharIndex
  {
    if st.lastCharIndex >= |s| - 1 then Ok(st)
    else
      match Scan(s, st)
      case Err(e) => Err(e)
      case Ok(next) => Drive(s, next)
  }

  /** Pausing loses nothing: wherever a call stops, driving on from there ends exactly where driving from
      the start without pauses ends. */
  lemma {:induction false} PausingIsTransparent(s: string, st: ScanState, pause: nat -> bool, calls: nat)
    requires Scanning(s, st)
    ensures Scanning(s, Run(s, st, pause, calls).state)
    ensures match Run(s, st, pause, calls)
      case Paused(next, _) => Drive(s, st) == Drive(s, next)
      case Finished(next, _) => Drive(s, st) == Ok(next) && next.lastCharIndex >= |s| - 1
      case Failed(e, _, _) => Drive(s, st) == Err(e)
    decreases |s| - st.lastCharIndex
  {
    if st.lastCharIndex < |s| - 1 {
      match Scan(s, st)
      case Err(_) =>
      case Ok(next) =>
        if !pause(calls) {
          PausingIsTransparent(s, next, pause, calls + 1);
        }
    }
  }

  /** Each call of the pause predicate follows one processed delimiter, and the cursor never moves
      back: a call that pauses has processed at least one delimiter and moved the cursor forward. */
  lemma {:induction false} RunAdvances(s: string, st: ScanState, pause: nat -> bool, calls: nat)
    requires Scanning(s, st)
    ensures var out := Run(s, st, pause, calls);
      && out.calls >= calls
      && out.state.lastCharIndex >= st.lastCharIndex
      && (out.Paused? ==> out.calls > calls && out.state.lastCharIndex > st.lastCharIndex)
    decreases |s| - st.lastCharIndex
  {
    if st.lastCharIndex < |s| - 1 {
      match Scan(s, st)
      case Err(_) =>
      case Ok(next) =>
        if !pause(calls) {
          RunAdvances(s, next, pause, calls + 1);
        }
    }
  }

  /** A call stops at the first "yes" of the pause predicate: of the answers given during one call, the
      n-th is "yes" exactly when the call paused and it was the last one asked. */
  lemma {:induction false} RunStopsAtFirstPause(s: string, st: ScanState, pause: nat -> bool, calls: nat, n: nat)
    requires Scanning(s, st)
    requires calls <= n < Run(s, st, pause, calls).calls
    ensures var out := Run(s, st, pause, calls);
      pause(n) <==> out.Paused? && n == out.calls - 1
    decreases |s| - st.lastCharIndex
  {
    if st.lastCharIndex < |s| - 1 {
      var step := Scan(s, st);
      if step.Ok? && !pause(calls) {
        assert Run(s, st, pause, calls) == Run(s, step.value, pause, calls + 1);
        if n > calls {
          RunStopsAtFirstPause(s, step.value, pause, calls + 1, n);
        } else {
          RunAdvances(s, step.value, pause, calls + 1);
        }
      }
    }
  }

  /** `Result` after a complete parse of `s`: the container closed last, or `null` when none was closed. */
  function ParseAll(s: string): Result<Option<Element>, Exception> {
    match Drive(s, Initial)
    case Ok(st) => Ok(st.lastNested)
    case Err(e) => Err(e)
  }

  // ---------------------------------------------------------------------------------------------
  // Progress and the exception messages

  const Int32Max: int := 0x7FFF_FFFF

  /** C#'s integer division, which truncates toward zero. */
  function DivTrunc(a: int, b: int): int
    requires b != 0
  {
    if (a >= 0) == (b > 0) then (if a >= 0 then a / b else -a / -b)
    else -((if a >= 0 then a else -a) / (if b > 0 then b else -b))
  }

  /** `Progress`: `100 * Math.Max(0, LastCharIndex) / Serialized.Length` in `int` arithmetic; an empty
      text divides by zero. */
  function ProgressOf(lastCharIndex: int, length: nat): (r: Result<int, Exception>)
    ensures length == 0 <==> r == Err(DivideByZeroException)
  {
    if length == 0 then Err(DivideByZeroException)
    else Ok(DivTrunc(Wrap32(100 * (if lastCharIndex > 0 then lastCharIndex else 0)), length))
  }

  /** While the cursor stays inside the text (it always does) and `100 * length` fits an `int`, the
      progress lies in [0, 100) and never decreases as the cursor advances. */
  lemma {:induction false} ProgressBounds(i: int, j: int, length: nat)
    requires 0 < length && 100 * length <= Int32Max
    requires i <= j < length
    ensures ProgressOf(i, length).Ok? && ProgressOf(j, length).Ok?
    ensures 0 <= ProgressOf(i, length).value <= ProgressOf(j, length).value < 100
  {
    var a := 100 * (if i > 0 then i else 0);
    var b := 100 * (if j > 0 then j else 0);
    assert 0 <= a <= b < 100 * length by {
      MulMonotone(if i > 0 then i else 0, if j > 0 then j else 0, length);
    }
    ProgressValue(i, length);
    ProgressValue(j, length);
    DivMonotone(a, b, length);
  }

  /** Below the overflow bound the progress is the plain quotient. */
  lemma ProgressValue(i: int, length: nat)
    requires 0 < length && 100 * length <= Int32Max && i < length
    ensures ProgressOf(i, length) == Ok(100 * (if i > 0 then i else 0) / length)
  {
    var x := if i > 0 then i else 0;
    MulMonotone(x, x, length);
    assert 0 <= 100 * x <= Int32Max;
  }

  lemma MulMonotone(x: nat, y: nat, length: nat)
    requires x <= y < length
    ensures 100 * x <= 100 * y < 100 * length
  {
  }

  lemma DivMonotone(a: nat, b: nat, d: nat)
    requires 0 < d && a <= b < 100 * d
    ensures a / d <= b / d < 100
  {
    assert a == d * (a / d) + a % d && 0 <= a % d < d;
    assert b == d * (b / d) + b % d && 0 <= b % d < d;
    assert d * (a / d) < d * (b / d + 1);
    MulCancel(d, a / d, b / d + 1);
    assert d * (b / d) < d * 100;
    MulCancel(d, b / d, 100);
  }

  lemma MulCancel(d: int, x: int, y: int)
    requires d > 0 && d * x < d * y
    ensures x < y
  {
  }

  /** The text of a `ParseException`: "PARSE ERROR", the position unless it is -1, then the message. */
  function ParseErrorMessage(message: string, position: int): (m: string)
    ensures |m| > 13 ==> m[..11] == "PARSE ERROR"
  {
    "PARSE ERROR" + (if position == -1 then "" else " after char " + IntToString(position)) + ": " + message
  }

  /** The message of an `UnexpectedCharacterException`, listing the expected characters. */
  function UnexpectedMessage(expected: seq<char>, received: string): string {
    "Expected one of [ '" + Join(CharStrings(expected), "', '") + "' ] but received " + received + "!"
  }

  function CharStrings(cs: seq<char>): (r: seq<string>)
    ensures |r| == |cs| && forall i :: 0 <= i < |cs| ==> r[i] == [cs[i]]
  {
    if cs == [] then [] else [[cs[0]]] + CharStrings(cs[1..])
  }

  /** One turn of the loop of `Run`, unfolded. */
  lemma RunUnfold(s: string, st: ScanState, pause: nat -> bool, calls: nat)
    requires Scanning(s, st) && st.lastCharIndex < |s| - 1
    ensures Scan(s, st).Err? ==> Run(s, st, pause, calls) == Failed(Scan(s, st).error, st, calls)
    ensures Scan(s, st).Ok? && pause(calls) ==> Run(s, st, pause, calls) == Paused(Scan(s, st).value, calls + 1)
    ensures Scan(s, st).Ok? && !pause(calls) ==> Run(s, st, pause, calls) == Run(s, Scan(s, st).value, pause, calls + 1)
  {
  }

  // ---------------------------------------------------------------------------------------------
  // The `JSON` object

  /** Where the coroutine stands: not yet started, suspended after a `yield return false`, suspended
      after the final `yield return true`, or finished (also after an exception escaped it). */
  datatype Phase = NotStarted | Suspended | FinalYielded | Done

  class Json {
    /** `Serialized`. */
    const serialized: string
    /** `ShouldPause`: its answer the n-th time it is asked. */
    const shouldPause: nat -> bool
    /** The coroutine's variables; `state.lastCharIndex` is the field `LastCharIndex`. */
    var state: ScanState
    var phase: Phase
    /** `Result`. */
    var result: Option<Element>
    /** How often `ShouldPause` has been asked. */
    var pauseCalls: nat

    ghost predicate Valid()
      reads this
    {
      && |serialized| <= Int32Max
      && (phase == NotStarted ==> state.lastCharIndex == 0 && pauseCalls == 0)
      && (phase != NotStarted ==> Scanning(serialized, state))
    }

    /** The constructor only creates the coroutine; nothing is parsed until the first `ParsingComplete`. */
    constructor (serialized: string, shouldPause: nat -> bool)
      requires |serialized| <= Int32Max
      ensures Valid() && this.serialized == serialized && this.shouldPause == shouldPause
      ensures phase == NotStarted && result == None && pauseCalls == 0 && state.lastCharIndex == 0
    {
      this.serialized := serialized;
      this.shouldPause := shouldPause;
      state := Initial.(lastCharIndex := 0);
      phase := NotStarted;
      result := None;
      pauseCalls := 0;
    }

    /** `Progress`. */
    function Progress(): Result<int, Exception>
      reads this
    {
      ProgressOf(state.lastCharIndex, |serialized|)
    }

    /** The body of the coroutine's loop from the current state up to its next `yield` or exception. */
    method RunLoop() returns (r: Result<bool, Exception>)
      requires Valid() && phase == Suspended
      modifies this`state, this`phase, this`result, this`pauseCalls
      ensures Valid()
      ensures var out := Run(serialized, old(state), shouldPause, old(pauseCalls));
        && state == out.state && pauseCalls == out.calls
        && (out.Paused? ==> r == Ok(true) && phase == Suspended && result == old(result))
        && (out.Finished? ==> r == Ok(true) && phase == FinalYielded && result == out.state.lastNested)
        && (out.Failed? ==> r == Err(out.error) && phase == Done && result == old(result))
    {
      ghost var out := Run(serialized, state, shouldPause, pauseCalls);
      assert out == Run(serialized, state, shouldPause, pauseCalls);
      while state.lastCharIndex < |serialized| - 1
        invariant Valid() && phase == Suspended && result == old(result)
        invariant out == Run(serialized, state, shouldPause, pauseCalls)
        decreases |serialized| - state.lastCharIndex
      {
        var step := Scan(serialized, state);
        ghost var calls := pauseCalls;
        RunUnfold(serialized, state, shouldPause, calls);
        if step.Err? {
          assert out == Failed(step.error, state, pauseCalls);
          phase := Done;
          return Err(step.error);
        }
        state := step.value;
        var answer := shouldPause(pauseCalls);
        pauseCalls := pauseCalls + 1;
        if answer {
          assert out == Paused(state, pauseCalls);
          return Ok(true);
        }
        assert out == Run(serialized, step.value, shouldPause, calls + 1);
        assert state == step.value && pauseCalls == calls + 1;
        assert out == Run(serialized, state, shouldPause, pauseCalls);
      }
      assert out == Finished(state, pauseCalls);
      result := state.lastNested;
      phase := FinalYielded;
      return Ok(true);
    }

    /** `Enumerator.MoveNext()`: runs the coroutine to its next `yield`. True means it yielded; false means
        it had already ended. An exception leaves it ended. */
    method MoveNext() returns (r: Result<bool, Exception>)
      requires Valid()
      modifies this
      ensures Valid()
      ensures old(phase) == FinalYielded || old(phase) == Done ==>
        r == Ok(false) && phase == Done && state == old(state) && result == old(result)
        && pauseCalls == old(pauseCalls)
      ensures old(phase) == NotStarted || old(phase) == Suspended ==>
        var start := if old(phase) == NotStarted then Initial else old(state);
        var out := Run(serialized, start, shouldPause, old(pauseCalls));
        && Scanning(serialized, start)
        && state == out.state && pauseCalls == out.calls
        && (out.Paused? ==> r == Ok(true) && phase == Suspended && result == old(result))
        && (out.Finished? ==> r == Ok(true) && phase == FinalYielded && result == out.state.lastNested)
        && (out.Failed? ==> r == Err(out.error) && phase == Done && result == old(result))
    {
      if phase == FinalYielded || phase == Done {
        phase := Done;
        return Ok(false);
      }
      if phase == NotStarted {
        state := Initial;
      }
      phase := Suspended;
      r := RunLoop();
    }

    /** `ParsingComplete()`: `!MoveNext()`. It is false on the call that consumes the end of the text and
        sets `Result`, and true on every call after that. */
    method ParsingComplete() returns (r: Result<bool, Exception>)
      requires Valid()
      modifies this
      ensures Valid()
      ensures old(phase) == FinalYielded || old(phase) == Done ==> r == Ok(true) && result == old(result)
      ensures old(phase) == NotStarted || old(phase) == Suspended ==>
        var start := if old(phase) == NotStarted then Initial else old(state);
        Scanning(serialized, start) &&
        match Run(serialized, start, shouldPause, old(pauseCalls))
        case Paused(st, _) => r == Ok(false) && phase == Suspended && state == st
        case Finished(st, _) => r == Ok(false) && phase == FinalYielded && result == st.lastNested
        case Failed(e, _, _) => r == Err(e) && phase == Done
    {
      var moved := MoveNext();
      r := match moved
        case Ok(b) => Ok(!b)
        case Err(e) => Err(e);
    }
  }
}
