/** The Python value json.loads returns, with the three things the learning-path
    code does to it: test its truth value, look a key up in a dict, and turn an
    element into a string with str(). */
module Json {
  import opened Text

  /** A parsed JSON value. An object is the member list of the resulting dict
      (keys distinct, in document order); a float carries Python's repr of it. */
  datatype Json =
    | JNull
    | JBool(b: bool)
    | JInt(i: int)
    | JFloat(repr: string)
    | JString(s: string)
    | JArray(items: seq<Json>)
    | JObject(members: seq<(string, Json)>)

  /** Python's truth value of the parsed value (`if parsed:`). */
  predicate Truthy(j: Json)
  {
    match j
    case JNull => false
    case JBool(b) => b
    case JInt(i) => i != 0
    case JFloat(r) => r != "0.0" && r != "-0.0"
    case JString(s) => s != ""
    case JArray(items) => items != []
    case JObject(members) => members != []
  }

  /** dict.get(key): the value stored under key, if any. */
  function Get(members: seq<(string, Json)>, key: string): Option<Json>
  {
    if members == [] then None
    else if members[0].0 == key then Some(members[0].1)
    else Get(members[1..], key)
  }

  /** dict.get finds nothing exactly when no member has the key, and what it
      finds is stored under the key. */
  lemma {:induction false} GetFinds(members: seq<(string, Json)>, key: string)
    ensures var r := Get(members, key);
      (r.None? <==> forall k | 0 <= k < |members| :: members[k].0 != key)
      && (r.Some? ==> exists k | 0 <= k < |members| :: members[k] == (key, r.value))
  {
    if members != [] && members[0].0 != key {
      var tail := members[1..];
      GetFinds(tail, key);
      assert forall k | 1 <= k < |members| :: members[k] == tail[k - 1];
      var r := Get(tail, key);
      if r.Some? {
        var k :| 0 <= k < |tail| && tail[k] == (key, r.value);
        assert members[k + 1] == (key, r.value);
      }
    }
  }

  /** The members of an object, and none for any other value. */
  function Members(j: Json): seq<(string, Json)>
  {
    if j.JObject? then j.members else []
  }

  /** type(j).__name__, as Python reports it in an AttributeError. */
  function TypeName(j: Json): string
  {
    match j
    case JNull => "NoneType"
    case JBool(_) => "bool"
    case JInt(_) => "int"
    case JFloat(_) => "float"
    case JString(_) => "str"
    case JArray(_) => "list"
    case JObject(_) => "dict"
  }

  /** str(j): a string is itself, anything else is its repr. */
  function PyStr(j: Json): (r: string)
    ensures j.JString? ==> r == j.s
    ensures j.JInt? && j.i >= 0 ==> AllDigits(r) && DigitsValue(r) == j.i
  {
    if j.JString? then j.s else PyRepr(j)
  }

  /** repr(j) for the values json.loads produces. */
  function PyRepr(j: Json): string
    decreases j, 1
  {
    match j
    case JNull => "None"
    case JBool(b) => if b then "True" else "False"
    case JInt(i) => IntToDecimal(i)
    case JFloat(r) => r
    case JString(s) => ReprString(s)
    case JArray(items) => "[" + ReprItems(j, items) + "]"
    case JObject(members) => "{" + ReprMembers(j, members) + "}"
  }

  function ReprItems(ghost parent: Json, items: seq<Json>): string
    requires forall k | 0 <= k < |items| :: items[k] < parent
    decreases parent, 0, |items|
  {
    if items == [] then ""
    else if |items| == 1 then PyRepr(items[0])
    else PyRepr(items[0]) + ", " + ReprItems(parent, items[1..])
  }

  function ReprMembers(ghost parent: Json, members: seq<(string, Json)>): string
    requires forall k | 0 <= k < |members| :: members[k].1 < parent
    decreases parent, 0, |members|
  {
    if members == [] then ""
    else
      var m := ReprString(members[0].0) + ": " + PyRepr(members[0].1);
      if |members| == 1 then m else m + ", " + ReprMembers(parent, members[1..])
  }

  /** repr(s): single quotes unless s holds a single quote and no double quote. */
  function ReprString(s: string): string
  {
    var q := if '\'' in s && '"' !in s then '"' else '\'';
    [q] + ReprChars(s, q) + [q]
  }

  function ReprChars(s: string, q: char): string
  {
    if s == [] then "" else ReprChar(s[0], q) + ReprChars(s[1..], q)
  }

  function ReprChar(c: char, q: char): string
  {
    if c == q || c == '\\' then ['\\', c]
    else if c == '\t' then "\\t"
    else if c == '\n' then "\\n"
    else if c == '\r' then "\\r"
    else if c < ' ' || ('\U{7f}' <= c <= '\U{a0}') || c == '\U{ad}' then
      "\\x" + [HexDigit(c as int / 16), HexDigit(c as int % 16)]
    else [c]
  }

  function HexDigit(d: int): char
    requires 0 <= d < 16
  {
    if d < 10 then ('0' as int + d) as char else ('a' as int + d - 10) as char
  }
}
