/** Values as `json.loads` returns them, and the two Python operations the scripts apply to
    them: `dict.get` and `str()`. Parsing itself is not modelled: requests arrive already
    decoded, from a decoder the transport loop is given. */
module Json {
  import opened Text

  /** A decoded JSON value. Numbers keep the text Python's `str()` prints for them; an object
      keeps its members in insertion order, as a Python dict does. */
  datatype Json =
    | JNull
    | JBool(b: bool)
    | JNum(text: string)
    | JStr(s: string)
    | JArr(items: seq<Json>)
    | JObj(members: seq<(string, Json)>)

  /** `d.get(key, fallback)` on a dict decoded from members `members`. A key written twice
      keeps its last value, as `json.loads` does, so the search runs from the end. */
  function Get(members: seq<(string, Json)>, key: string, fallback: Json): Json
    decreases |members|
  {
    if members == [] then fallback
    else if members[|members| - 1].0 == key then members[|members| - 1].1
    else Get(members[..|members| - 1], key, fallback)
  }

  /** `get` on the one-, two- and three-member dicts the scripts build. */
  lemma GetOne(k: string, v: Json, key: string, fallback: Json)
    ensures Get([(k, v)], key, fallback) == if k == key then v else fallback
  {
    assert [(k, v)][..0] == [];
  }

  lemma GetTwo(k1: string, v1: Json, k2: string, v2: Json, key: string, fallback: Json)
    ensures Get([(k1, v1), (k2, v2)], key, fallback)
         == if k2 == key then v2 else if k1 == key then v1 else fallback
  {
    assert [(k1, v1), (k2, v2)][..1] == [(k1, v1)];
    GetOne(k1, v1, key, fallback);
  }

  lemma GetThree(k1: string, v1: Json, k2: string, v2: Json, k3: string, v3: Json, key: string, fallback: Json)
    ensures Get([(k1, v1), (k2, v2), (k3, v3)], key, fallback)
         == if k3 == key then v3 else if k2 == key then v2 else if k1 == key then v1 else fallback
  {
    assert [(k1, v1), (k2, v2), (k3, v3)][..2] == [(k1, v1), (k2, v2)];
    GetTwo(k1, v1, k2, v2, key, fallback);
  }

  predicate IsDigits(t: string) {
    t != "" && forall i :: 0 <= i < |t| ==> '0' <= t[i] <= '9'
  }

  /** `type(v).__name__`. */
  function TypeName(v: Json): string {
    match v
    case JNull => "NoneType"
    case JBool(_) => "bool"
    case JNum(t) => if IsDigits(t) || (t != "" && t[0] == '-' && IsDigits(t[1..])) then "int" else "float"
    case JStr(_) => "str"
    case JArr(_) => "list"
    case JObj(_) => "dict"
  }

  /** `repr(v)`. */
  function Repr(v: Json): string
    decreases v
  {
    match v
    case JNull => "None"
    case JBool(b) => if b then "True" else "False"
    case JNum(t) => t
    case JStr(s) => StrRepr(s)
    case JArr(items) =>
      "[" + JoinWith(", ", seq(|items|, i requires 0 <= i < |items| => Repr(items[i]))) + "]"
    case JObj(ms) =>
      "{" + JoinWith(", ", seq(|ms|, i requires 0 <= i < |ms| => StrRepr(ms[i].0) + ": " + Repr(ms[i].1))) + "}"
  }

  /** `str(v)`, which is also what an f-string interpolates. */
  function Show(v: Json): string {
    if v.JStr? then v.s else Repr(v)
  }
}
