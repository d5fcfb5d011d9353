/** Newtonsoft's JSON token tree (`JToken`) as a value. Objects keep their
    properties as an ordered list, because property enumeration order is
    observable in the list decoder. */
module Json {
  import opened Wrappers
  import opened Strings

  /** `JTokenType` values that have no dedicated constructor below.
      `OutOfRange` stands for an integer cast to the enum that names none
      of its members, which C# permits. */
  datatype OtherKind =
    | KNone | Constructor | Property | Comment | Undefined | Raw
    | Bytes | Guid | Uri | TimeSpan | OutOfRange(code: int)

  datatype Json =
    | JNull
    | JBool(b: bool)
    | JInt(i: int)
    | JFloat(literal: string)             // the double is kept as its text
    | JString(s: string)
    | JDate(seconds: int, literal: string) // whole seconds since 0001-01-01
    | JArray(elems: seq<Json>)
    | JObject(props: seq<Prop>)
    | JOther(kind: OtherKind, literal: string)
  {
    /** A `JValue`, as opposed to a container. */
    predicate IsScalar() {
      !JArray? && !JObject?
    }
  }

  datatype Prop = Prop(name: string, value: Json)

  /** `JObject.TryGetValue(key)`: the value of the first property named `key`. */
  function Get(props: seq<Prop>, key: string): (r: Option<Json>)
    ensures r.Some? ==> exists i :: 0 <= i < |props| && props[i] == Prop(key, r.value)
    ensures r.None? <==> forall i :: 0 <= i < |props| ==> props[i].name != key
    decreases |props|
  {
    if |props| == 0 then None
    else if props[0].name == key then Some(props[0].value)
    else Get(props[1..], key)
  }

  /** `JObject.ContainsKey(key)`. */
  predicate Has(props: seq<Prop>, key: string) {
    Get(props, key).Some?
  }

  /** The property names of an object, in order. */
  function Names(props: seq<Prop>): (ns: seq<string>)
    ensures |ns| == |props| && forall i :: 0 <= i < |props| ==> ns[i] == props[i].name
  {
    seq(|props|, i requires 0 <= i < |props| => props[i].name)
  }

  /** The upper case of `c` under .NET's invariant simple case mapping, as
      far as it matters when the other side is ASCII: ASCII letters, and the
      two non-ASCII letters whose upper case is ASCII, dotless `ı` (`I`) and
      long `ſ` (`S`). Every other character is left as it is. */
  function UpperAscii(c: char): (u: char)
    ensures 'a' <= c <= 'z' ==> u as int == c as int - 32
    ensures u != c ==> ('a' <= c <= 'z' || c == '\U{0131}' || c == '\U{017F}')
  {
    if 'a' <= c <= 'z' then (c as int - 32) as char
    else if c == '\U{0131}' then 'I'
    else if c == '\U{017F}' then 'S'
    else c
  }

  /** `string.Equals(name, member, StringComparison.OrdinalIgnoreCase)` for
      a `member` spelt in ASCII: equal lengths and equal upper cases. */
  predicate MatchesName(name: string, member: string) {
    |name| == |member| && forall i :: 0 <= i < |name| ==> UpperAscii(name[i]) == UpperAscii(member[i])
  }

  /** `JObject.PropertyValues()`, in property order. */
  function Values(props: seq<Prop>): (vs: seq<Json>)
    ensures |vs| == |props| && forall i :: 0 <= i < |props| ==> vs[i] == props[i].value
  {
    seq(|props|, i requires 0 <= i < |props| => props[i].value)
  }

  /** `JValue.ToString()`: the raw text of a scalar, without quotes; a null
      value gives the empty string and booleans print as .NET does. */
  function ScalarText(j: Json): string
    requires j.IsScalar()
  {
    match j
    case JNull => ""
    case JBool(b) => if b then "True" else "False"
    case JInt(i) => IntToString(i)
    case JFloat(l) => l
    case JString(s) => s
    case JDate(_, l) => l
    case JOther(_, l) => l
  }

  /** `JToken.ToString()`. Containers print as indented JSON; that layout
      is Newtonsoft's and is supplied as `render`. */
  function Text(j: Json, render: Json -> string): string {
    if j.IsScalar() then ScalarText(j) else render(j)
  }
}
