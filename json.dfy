/**
 * Decoded JSON as the monitor's extractors see it after `json.loads`, with
 * the parts of Python's object semantics they rely on: truthiness, `or`,
 * `dict.get` and `str()`.
 */
module Json {
  import opened Text

  /**
   * A decoded JSON value. Integers and other numbers are distinct, as `int`
   * and `float` are in Python. An object keeps its members in document order;
   * a decoder yields distinct keys, and `Get` reads the first member with a key.
   */
  datatype Json =
    | JNull
    | JBool(b: bool)
    | JInt(i: int)
    | JReal(r: real)
    | JStr(s: string)
    | JArray(elems: seq<Json>)
    | JObject(members: seq<Member>)

  datatype Member = Member(key: string, value: Json)

  /** Python truthiness: `None`, `False`, zero, and empty strings, lists and dicts are false. */
  predicate Truthy(j: Json)
  {
    match j
    case JNull => false
    case JBool(b) => b
    case JInt(i) => i != 0
    case JReal(r) => r != 0.0
    case JStr(s) => s != []
    case JArray(xs) => xs != []
    case JObject(ms) => ms != []
  }

  /**
   * Python's `a or b`: one of its operands, truthy exactly when either is,
   * and `a` itself when `a` is truthy.
   */
  function Or(a: Json, b: Json): (r: Json)
    ensures Truthy(r) <==> Truthy(a) || Truthy(b)
    ensures Truthy(a) ==> r == a
    ensures !Truthy(a) ==> r == b
  {
    if Truthy(a) then a else b
  }

  /** A chain `a or b or c` picks the same value however it is grouped. */
  lemma OrAssociative(a: Json, b: Json, c: Json)
    ensures Or(Or(a, b), c) == Or(a, Or(b, c))
  {
  }

  /** A falsy fallback at the end of a chain changes nothing once some earlier operand is truthy. */
  lemma OrFirstTruthyWins(a: Json, b: Json, c: Json)
    requires !Truthy(a) && Truthy(b)
    ensures Or(a, Or(b, c)) == b
  {
  }

  function Lookup(ms: seq<Member>, key: string): (v: Json)
    ensures v != JNull ==> exists i :: 0 <= i < |ms| && ms[i].key == key && ms[i].value == v
  {
    if ms == [] then JNull
    else if ms[0].key == key then ms[0].value
    else Lookup(ms[1..], key)
  }

  /** `d.get(key)` on a dict: the member's value, or `None` when the key is absent. */
  function Get(d: Json, key: string): Json
    requires d.JObject?
  {
    Lookup(d.members, key)
  }

  function HasKey(d: Json, key: string): bool
    requires d.JObject?
  {
    exists i :: 0 <= i < |d.members| && d.members[i].key == key
  }

  /** A key that is absent reads as `None`. */
  lemma {:induction false} MissingKeyIsNull(ms: seq<Member>, key: string)
    requires forall i :: 0 <= i < |ms| ==> ms[i].key != key
    ensures Lookup(ms, key) == JNull
  {
    if ms != [] {
      MissingKeyIsNull(ms[1..], key);
    }
  }

  /**
   * Python's `str(v)`. Strings, integers, booleans and `None` render as Python
   * renders them; floats, lists and dicts go through `repr`, which stands for
   * Python's own rendering of those values.
   */
  function Str(repr: Json -> string, j: Json): (r: string)
    ensures j.JStr? ==> r == j.s
    ensures j.JInt? ==> r == IntToString(j.i)
    ensures j == JBool(true) ==> r == "True"
    ensures j == JBool(false) ==> r == "False"
    ensures j == JNull ==> r == "None"
  {
    match j
    case JStr(s) => s
    case JInt(i) => IntToString(i)
    case JBool(b) => if b then "True" else "False"
    case JNull => "None"
    case _ => repr(j)
  }

  /** Two integer ids render to the same text only when they are equal, negative ones included. */
  lemma StrIntInjective(repr: Json -> string, i: int, j: int)
    requires Str(repr, JInt(i)) == Str(repr, JInt(j))
    ensures i == j
  {
    IntToStringInjective(i, j);
  }

  /** An integer id and the string holding its digits give the same item id. */
  lemma StrIntMatchesString(repr: Json -> string, i: int)
    ensures Str(repr, JStr(IntToString(i))) == Str(repr, JInt(i))
  {
  }

  /** The values nested directly inside `j`, in iteration order (`dict.items()` values, list elements). */
  function ChildCount(j: Json): nat
  {
    match j
    case JObject(ms) => |ms|
    case JArray(xs) => |xs|
    case _ => 0
  }

  function ChildAt(j: Json, i: nat): (c: Json)
    requires i < ChildCount(j)
    ensures c < j
  {
    match j
    case JObject(ms) => assert ms[i] in ms; ms[i].value
    case JArray(xs) => xs[i]
  }
}
