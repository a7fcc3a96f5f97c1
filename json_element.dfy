/**
 * The element tree the JSON parser builds: the abstract `JsonElement` with its three kinds `JsonPrimitive`,
 * `JsonList` and `JsonObject`, and their compact and pretty renderings.
 *
 * A tree is the value `Element`; each class holds the fields its C# counterpart updates in place and
 * keeps its children as `Element` values.
 */
module JsonElements {
  import opened Wrappers
  import opened Seqs
  import opened Text
  import opened Errors

  /** `JsonElement.JSONValueType`: the three kinds of element. */
  datatype JsonValueType = NESTED | LIST | PRIMITIVE

  /** An element as a value: a primitive's key and text, a list's key and items in order, an object's
      key and its dictionary entries in enumeration order. */
  datatype Element =
    | Primitive(key: NullableString, value: NullableString)
    | List(key: NullableString, items: seq<Element>)
    | Object(key: NullableString, members: seq<Member>)
  {
    /** `ValueType`: `PRIMITIVE` for a primitive, `LIST` for a list, `NESTED` for an object. */
    function ValueType(): (t: JsonValueType)
      ensures t == PRIMITIVE <==> Primitive?
      ensures t == LIST <==> List?
      ensures t == NESTED <==> Object?
    {
      match this
      case Primitive(_, _) => PRIMITIVE
      case List(_, _) => LIST
      case Object(_, _) => NESTED
    }

    /** `IsPrimitive`. */
    predicate IsPrimitive() {
      ValueType() == PRIMITIVE
    }

    /** The kinds that implement `IJsonNonPrimitive` and accept children. */
    predicate IsContainer() {
      List? || Object?
    }

    /** The number of children of a container. */
    function ChildCount(): nat {
      match this
      case Primitive(_, _) => 0
      case List(_, items) => |items|
      case Object(_, members) => |members|
    }
  }

  /** A dictionary entry of a `JsonObject`: the key the child was added under, and the child. */
  datatype Member = Member(name: string, child: Element)

  /** `IsPrimitive` holds exactly for primitives. */
  lemma IsPrimitiveExactly(e: Element)
    ensures e.IsPrimitive() <==> e.Primitive?
  {
  }

  // ---------------------------------------------------------------------------------------------
  // Rendering

  /** The key prefix, `key: ` when pretty and `key:` when compact; a null key adds no text, as C#'s
      string concatenation treats `null` as empty. */
  function KeyPrefix(key: NullableString, pretty: bool): string {
    key.GetOr("") + (if pretty then ": " else ":")
  }

  /** A primitive or an object prints its key only when it is neither null nor empty. */
  predicate ShowsKey(key: NullableString) {
    key.Some? && key.value != ""
  }

  /** The text before a container's opening bracket: a list prints its key prefix whenever the key is not
      `""` (so a null key gives a bare `: `), an object only for a non-null, non-empty key. */
  function Head(e: Element, pretty: bool): string
    requires e.IsContainer()
  {
    if (e.List? && e.key != Some("")) || (e.Object? && ShowsKey(e.key)) then KeyPrefix(e.key, pretty) else ""
  }

  /** A child's text inside a container: pretty mode puts it on its own line and indents its inner lines. */
  function Indented(child: string, pretty: bool): string {
    if pretty then "\n  " + Replace(child, "\n", "\n  ") else child
  }

  /** A container's text: the head, then the bracket and the comma-separated children, then the closing
      bracket on its own line when pretty. With no children the opening bracket is absent. */
  function Enclosed(head: string, open: char, close: char, pieces: seq<string>, pretty: bool): string {
    (if pieces == [] then head else head + [open] + Join(pieces, ","))
      + (if pretty then "\n" else "") + [close]
  }

  /** `ToString(pretty)` of an element. */
  function Render(e: Element, pretty: bool): string
    decreases e
  {
    match e
    case Primitive(key, value) =>
      if value.None? then "" else (if ShowsKey(key) then KeyPrefix(key, pretty) else "") + value.value
    case List(_, items) => Enclosed(Head(e, pretty), '[', ']', RenderItems(items, pretty), pretty)
    case Object(_, members) => Enclosed(Head(e, pretty), '{', '}', RenderMembers(members, pretty), pretty)
  }

  /** The rendered and indented children of a list, in order. */
  function RenderItems(items: seq<Element>, pretty: bool): (r: seq<string>)
    ensures |r| == |items|
    ensures forall i :: 0 <= i < |items| ==> r[i] == Indented(Render(items[i], pretty), pretty)
    decreases items
  {
    if items == [] then [] else [Indented(Render(items[0], pretty), pretty)] + RenderItems(items[1..], pretty)
  }

  /** The rendered and indented children of an object, in enumeration order. */
  function RenderMembers(members: seq<Member>, pretty: bool): (r: seq<string>)
    ensures |r| == |members|
    ensures forall i :: 0 <= i < |members| ==> r[i] == Indented(Render(members[i].child, pretty), pretty)
    decreases members
  {
    if members == [] then []
    else [Indented(Render(members[0].child, pretty), pretty)] + RenderMembers(members[1..], pretty)
  }

  /** The text the rendering loops accumulate: every piece followed by a comma. */
  function Terminated(pieces: seq<string>): string {
    if pieces == [] then "" else Terminated(pieces[..|pieces| - 1]) + pieces[|pieces| - 1] + ","
  }

  /** The accumulated text is the comma-joined pieces followed by one more comma. */
  lemma {:induction false} TerminatedJoin(pieces: seq<string>)
    requires pieces != []
    ensures Terminated(pieces) == Join(pieces, ",") + ","
  {
    var init := pieces[..|pieces| - 1];
    if init == [] {
      assert Terminated(init) == "";
    } else {
      TerminatedJoin(init);
      JoinSnoc(init, pieces[|pieces| - 1], ",");
      assert init + [pieces[|pieces| - 1]] == pieces;
    }
  }

  /** Dropping the last character of the accumulated text removes the final comma, or, with no
      children, the opening bracket itself. */
  lemma DropLastComma(head: string, open: char, pieces: seq<string>)
    ensures var acc := head + [open] + Terminated(pieces);
      acc[..|acc| - 1] == if pieces == [] then head else head + [open] + Join(pieces, ",")
  {
    if pieces != [] {
      TerminatedJoin(pieces);
      var x := head + [open] + Join(pieces, ",");
      assert head + [open] + Terminated(pieces) == x + ",";
    }
  }

  lemma TerminatedSnoc(prefix: string, pieces: seq<string>, i: nat)
    requires i < |pieces|
    ensures prefix + Terminated(pieces[..i]) + pieces[i] + "," == prefix + Terminated(pieces[..i + 1])
  {
    assert pieces[..i + 1][..i] == pieces[..i];
  }

  /** One child's text as the rendering loops build it: the child's own rendering, its inner line breaks
      indented when pretty, after a line break and two spaces when pretty. */
  method ChildPiece(child: Element, pretty: bool) returns (piece: string)
    ensures piece == Indented(Render(child, pretty), pretty)
  {
    var childResult := Render(child, pretty);
    if pretty {
      childResult := Replace(childResult, "\n", "\n  ");
    }
    piece := (if pretty then "\n  " else "") + childResult;
  }

  /** The shared loop of `JsonList.ToString` and `JsonObject.ToString`: append each child's piece and a
      comma to `head + open`, drop the last character, append the closing bracket. */
  method RenderContainer(head: string, open: char, close: char, children: seq<Element>, pretty: bool)
    returns (s: string)
    ensures s == Enclosed(head, open, close, RenderItems(children, pretty), pretty)
  {
    var result := head + [open];
    ghost var pieces := RenderItems(children, pretty);
    var i := 0;
    while i < |children|
      invariant 0 <= i <= |children|
      invariant result == head + [open] + Terminated(pieces[..i])
    {
      var piece := ChildPiece(children[i], pretty);
      assert piece == pieces[i];
      TerminatedSnoc(head + [open], pieces, i);
      result := result + piece + ",";
      i := i + 1;
    }
    assert pieces[..i] == pieces;
    DropLastComma(head, open, pieces);
    result := result[..|result| - 1];
    assert result == if pieces == [] then head else head + [open] + Join(pieces, ",");
    s := result + (if pretty then "\n" else "") + [close];
  }

  /** The children of an object in enumeration order. */
  function Children(members: seq<Member>): (r: seq<Element>)
    ensures |r| == |members|
    ensures forall i :: 0 <= i < |members| ==> r[i] == members[i].child
  {
    if members == [] then [] else [members[0].child] + Children(members[1..])
  }

  lemma RenderMembersAsItems(members: seq<Member>, pretty: bool)
    ensures RenderMembers(members, pretty) == RenderItems(Children(members), pretty)
  {
  }

  // ---------------------------------------------------------------------------------------------
  // Dictionary entries of an object

  /** The keys of the entries, in enumeration order. */
  function Names(members: seq<Member>): (r: seq<string>)
    ensures |r| == |members|
    ensures forall i :: 0 <= i < |members| ==> r[i] == members[i].name
  {
    if members == [] then [] else [members[0].name] + Names(members[1..])
  }

  /** The child stored under `name`, if any. */
  function Lookup(members: seq<Member>, name: string): (r: Option<Element>)
    ensures r.Some? <==> name in Names(members)
    ensures r.Some? ==> exists i :: 0 <= i < |members| && members[i] == Member(name, r.value)
  {
    if members == [] then None
    else if members[0].name == name then Some(members[0].child)
    else
      var r := Lookup(members[1..], name);
      assert r.Some? ==> exists i :: 0 <= i < |members[1..]| && members[1..][i] == Member(name, r.value);
      assert Names(members) == [members[0].name] + Names(members[1..]);
      r
  }

  /** `Dictionary.Add(child.Key, child)`: a null key or a key already present throws, otherwise the entry
      is appended. */
  function ObjectAdd(members: seq<Member>, child: Element): (r: Result<seq<Member>, Exception>)
    ensures child.key.None? ==> r == Err(ArgumentNullException("key"))
    ensures child.key.Some? && child.key.value in Names(members) ==> r == Err(ArgumentException(DuplicateKey))
    ensures child.key.Some? && child.key.value !in Names(members) ==>
      r == Ok(members + [Member(child.key.value, child)])
  {
    if child.key.None? then Err(ArgumentNullException("key"))
    else if child.key.value in Names(members) then Err(ArgumentException(DuplicateKey))
    else Ok(members + [Member(child.key.value, child)])
  }

  /** A successful `Add` keeps the keys distinct, makes the child reachable under its key and leaves every
      other key's child as it was. */
  lemma {:induction false} ObjectAddLookup(members: seq<Member>, child: Element, name: string)
    requires Distinct(Names(members))
    requires ObjectAdd(members, child).Ok?
    ensures var added := ObjectAdd(members, child).value;
      && Distinct(Names(added))
      && Names(added) == Names(members) + [child.key.value]
      && Lookup(added, name) == if name == child.key.value then Some(child) else Lookup(members, name)
  {
    var added := members + [Member(child.key.value, child)];
    assert Names(added) == Names(members) + [child.key.value];
    LookupAppend(members, Member(child.key.value, child), name);
  }

  lemma {:induction false} LookupAppend(members: seq<Member>, m: Member, name: string)
    requires m.name !in Names(members)
    ensures Lookup(members + [m], name) == if name == m.name then Some(m.child) else Lookup(members, name)
  {
    if members != [] {
      assert (members + [m])[1..] == members[1..] + [m];
      assert Names(members) == [members[0].name] + Names(members[1..]);
      LookupAppend(members[1..], m, name);
    }
  }

  // ---------------------------------------------------------------------------------------------
  // Containers as the parser uses them (`IJsonNonPrimitive.Add`)

  /** `JsonList.Add` or `JsonObject.Add` on a container element. */
  function AddChild(parent: Element, child: Element): (r: Result<Element, Exception>)
    requires parent.IsContainer()
    ensures r.Ok? ==>
      && r.value.IsContainer() && r.value.key == parent.key
      && r.value.ValueType() == parent.ValueType() && r.value.ChildCount() == parent.ChildCount() + 1
    ensures parent.List? ==> r == Ok(List(parent.key, parent.items + [child]))
    ensures r.Err? ==> r.error in {ArgumentNullException("key"), ArgumentException(DuplicateKey)}
    ensures parent.Object? ==> r.Err? == ObjectAdd(parent.members, child).Err?
  {
    match parent
    case List(key, items) => Ok(List(key, items + [child]))
    case Object(key, members) =>
      match ObjectAdd(members, child)
      case Ok(added) => Ok(Object(key, added))
      case Err(e) => Err(e)
  }

  /** Writes the finished state of a container's most recently added child back into it: the parent holds
      that child by reference in C#, so it sees everything added to the child afterwards. */
  function ReplaceLastChild(parent: Element, child: Element): (r: Element)
    requires parent.IsContainer() && parent.ChildCount() > 0
    ensures r.IsContainer() && r.key == parent.key && r.ValueType() == parent.ValueType()
    ensures r.ChildCount() == parent.ChildCount()
  {
    match parent
    case List(key, items) => List(key, items[..|items| - 1] + [child])
    case Object(key, members) =>
      Object(key, members[..|members| - 1] + [Member(members[|members| - 1].name, child)])
  }

  // ---------------------------------------------------------------------------------------------
  // The classes

  /** The types `JsonPrimitive.GetValue<T>` is asked for; `OtherType` is any other type, by name. */
  datatype RequestedType =
    | StringType | IntType | FloatType | DoubleType | CharType | DateTimeType | DecimalType | BoolType
    | ByteType | UIntType | ShortType | LongType | OtherType(name: string)

  /** The result of `GetValue<T>`: the text itself for `string`, otherwise what the framework's `Parse`
      for that type produced. */
  datatype Value<V> = TextValue(text: NullableString) | ParsedValue(parsed: V)

  /** `JsonPrimitive`: a key and a text value. */
  class JsonPrimitive {
    var key: NullableString
    var value: NullableString

    constructor (key: NullableString, value: NullableString)
      ensures this.key == key && this.value == value
    {
      this.key := key;
      this.value := value;
    }

    function AsElement(): Element
      reads this
    {
      Primitive(key, value)
    }

    method SetKey(key: NullableString)
      modifies this
      ensures this.key == key && value == old(value)
    {
      this.key := key;
    }

    method SetValue(value: NullableString)
      modifies this
      ensures this.value == value && key == old(key)
    {
      this.value := value;
    }

    /** `GetValue<T>`: the text for `string`; the framework parser of the type for the eleven supported
        types (`parse` stands for `Int32.Parse`, `Double.Parse`, ...); an `ArgumentException` naming the
        type for any other. */
    function GetValue<V>(t: RequestedType, parse: (RequestedType, NullableString) -> Result<V, Exception>)
      : (r: Result<Value<V>, Exception>)
      reads this
      ensures t == StringType ==> r == Ok(TextValue(value))
      ensures t.OtherType? ==> r == Err(ArgumentException("Invalid type '" + t.name + "' requested!"))
      ensures !t.OtherType? && t != StringType ==>
        (r.Ok? <==> parse(t, value).Ok?) && (r.Ok? ==> r.value == ParsedValue(parse(t, value).value))
    {
      if t == StringType then Ok(TextValue(value))
      else if t.OtherType? then Err(ArgumentException("Invalid type '" + t.name + "' requested!"))
      else
        match parse(t, value)
        case Ok(v) => Ok(ParsedValue(v))
        case Err(e) => Err(e)
    }

    /** `TryGetValue<T>`: true with `GetValue`'s result, or false with `default(T)` (`None`) when it throws. */
    function TryGetValue<V>(t: RequestedType, parse: (RequestedType, NullableString) -> Result<V, Exception>)
      : (r: (bool, Option<Value<V>>))
      reads this
      ensures r.0 <==> GetValue(t, parse).Ok?
      ensures r.1 == if r.0 then Some(GetValue(t, parse).value) else None
    {
      match GetValue(t, parse)
      case Ok(v) => (true, Some(v))
      case Err(_) => (false, None)
    }

    /** `ToString(pretty)`: nothing for a null value; otherwise the value verbatim, after `key: ` or `key:`
        when the key is neither null nor empty. */
    function ToString(pretty: bool): (s: string)
      reads this
      ensures value.None? ==> s == ""
      ensures value.Some? && !ShowsKey(key) ==> s == value.value
      ensures value.Some? && ShowsKey(key) ==> s == key.value + (if pretty then ": " else ":") + value.value
      ensures s == Render(AsElement(), pretty)
    {
      if value.None? then ""
      else (if key != Some("") && key.Some? then key.value + (if pretty then ": " else ":") else "") + value.value
    }
  }

  /** `JsonList`: a key and the items in insertion order. */
  class JsonList {
    var key: NullableString
    var values: seq<Element>

    constructor (key: NullableString)
      ensures this.key == key && values == []
    {
      this.key := key;
      values := [];
    }

    function AsElement(): Element
      reads this
    {
      List(key, values)
    }

    method SetKey(key: NullableString)
      modifies this
      ensures this.key == key && values == old(values)
    {
      this.key := key;
    }

    /** The indexer `this[i]`; an index outside `[0, Count)` throws. */
    function Get(i: int): (r: Result<Element, Exception>)
      reads this
      ensures r.Ok? <==> 0 <= i < |values|
      ensures r.Ok? ==> r.value == values[i]
      ensures r.Err? ==> r.error == ArgumentOutOfRangeException("index")
    {
      if 0 <= i < |values| then Ok(values[i]) else Err(ArgumentOutOfRangeException("index"))
    }

    /** `Count`: the number of items. */
    function Count(): (n: nat)
      reads this
      ensures n == |values|
    {
      |values|
    }

    /** `IsReadOnly`: a list can always be changed. */
    predicate IsReadOnly(): (r: bool)
      reads this
      ensures !r
    {
      false
    }

    /** `Add` appends: the count grows by one and the last item is the added one. */
    method Add(e: Element)
      modifies this
      ensures values == old(values) + [e] && key == old(key)
      ensures Count() == old(Count()) + 1 && Get(Count() - 1) == Ok(e)
    {
      values := values + [e];
    }

    method Clear()
      modifies this
      ensures values == [] && key == old(key)
    {
      values := [];
    }

    /** `Contains`: whether some item equals `e`. */
    predicate Contains(e: Element): (r: bool)
      reads this
      ensures r <==> exists i :: 0 <= i < |values| && values[i] == e
    {
      e in values
    }

    /** `Remove`: drops the first equal item and says whether there was one. */
    method Remove(e: Element) returns (found: bool)
      modifies this
      ensures found == (e in old(values))
      ensures values == RemoveFirst(old(values), e) && key == old(key)
    {
      found := e in values;
      values := RemoveFirst(values, e);
    }

    /** `ToString(pretty)`. */
    method ToString(pretty: bool) returns (s: string)
      ensures s == Render(AsElement(), pretty)
    {
      var head := if key != Some("") then key.GetOr("") + (if pretty then ": " else ":") else "";
      s := RenderContainer(head, '[', ']', values, pretty);
    }
  }

  /** `JsonObject`: a key and a dictionary from keys to children, kept in enumeration order. */
  class JsonObject {
    var key: NullableString
    var members: seq<Member>

    ghost predicate Valid()
      reads this
    {
      Distinct(Names(members))
    }

    constructor (key: NullableString)
      ensures Valid() && this.key == key && members == []
    {
      this.key := key;
      members := [];
    }

    function AsElement(): Element
      reads this
    {
      Object(key, members)
    }

    method SetKey(key: NullableString)
      modifies this
      ensures this.key == key && members == old(members)
    {
      this.key := key;
    }

    /** `Keys`: the key of every entry, in enumeration order. */
    function Keys(): (r: seq<string>)
      reads this
      ensures |r| == |members| && forall i :: 0 <= i < |members| ==> r[i] == members[i].name
    {
      Names(members)
    }

    /** `ContainsKey(k)`: true exactly for the keys of added children; a null key throws. */
    function ContainsKey(k: NullableString): (r: Result<bool, Exception>)
      reads this
      ensures r.Err? <==> k.None?
      ensures r.Ok? ==> (r.value <==> k.value in Keys())
    {
      if k.None? then Err(ArgumentNullException("key")) else Ok(k.value in Names(members))
    }

    /** The indexer `this[k]`: the child added under `k`; a null key or a missing key throws. */
    function Get(k: NullableString): (r: Result<Element, Exception>)
      reads this
      ensures k.None? ==> r == Err(ArgumentNullException("key"))
      ensures k.Some? && k.value !in Keys() ==> r == Err(KeyNotFoundException(k.value))
      ensures r.Ok? ==> Member(k.value, r.value) in members
    {
      if k.None? then Err(ArgumentNullException("key"))
      else
        match Lookup(members, k.value)
        case Some(child) => Ok(child)
        case None => Err(KeyNotFoundException(k.value))
    }

    /** `GetValueOrDefault(k)`: the child when the key is present, `null` (`None`) when it is not. */
    function GetValueOrDefault(k: NullableString): (r: Result<Option<Element>, Exception>)
      reads this
      ensures k.None? ==> r.Err?
      ensures k.Some? ==> r.Ok? && (r.value.Some? <==> k.value in Keys())
      ensures k.Some? && r.value.Some? ==> Get(k) == Ok(r.value.value)
    {
      if k.None? then Err(ArgumentNullException("key"))
      else if k.value in Names(members) then Ok(Lookup(members, k.value))
      else Ok(None)
    }

    /** `Add(child)`: stores the child under its own key; a null or duplicate key throws and changes
        nothing. */
    method Add(child: Element) returns (r: Outcome<Exception>)
      requires Valid()
      modifies this
      ensures Valid() && key == old(key)
      ensures r.Fail? <==> child.key.None? || child.key.value in old(Keys())
      ensures r.Fail? ==> members == old(members)
      ensures r.Pass? ==> members == old(members) + [Member(child.key.value, child)]
      ensures r.Pass? ==> Keys() == old(Keys()) + [child.key.value] && Get(child.key) == Ok(child)
    {
      match ObjectAdd(members, child)
      case Ok(added) =>
        ObjectAddLookup(members, child, child.key.value);
        members := added;
        r := Pass;
      case Err(e) =>
        r := Fail(e);
    }

    /** `ToString(pretty)`. */
    method ToString(pretty: bool) returns (s: string)
      ensures s == Render(AsElement(), pretty)
    {
      var head := if key != Some("") && key.Some? then key.value + (if pretty then ": " else ":") else "";
      s := RenderContainer(head, '{', '}', Children(members), pretty);
      RenderMembersAsItems(members, pretty);
    }
  }
}
