/** The loose JSON-like values stored in a lead record, and the Python idioms
    the tool applies to them: `d.get(k)`, `d.get(k, default)`, truthiness,
    `a or b`, and `str(v)` inside an f-string. */
module Values {
  import opened Text

  datatype Option<T> = None | Some(value: T)

  /** A field value: Python's None, a string, or a number. Numbers are the
      whole-valued floats the tool stores as budgets. */
  datatype Value = VNone | VStr(s: string) | VNum(n: int)

  /** A lead record: a dictionary from field name to value. A key that is
      present with value None differs from a key that is absent. */
  type Lead = map<string, Value>

  /** `d.get(k)`: the stored value, or None when the key is absent. */
  function Get(d: Lead, k: string): (v: Value)
    ensures k !in d ==> v == VNone
    ensures k in d ==> v == d[k]
  {
    if k in d then d[k] else VNone
  }

  /** `d.get(k, default)`: a key present with value None yields None. */
  function GetOr(d: Lead, k: string, default: Value): (v: Value)
    ensures k in d ==> v == d[k]
    ensures k !in d ==> v == default
  {
    if k in d then d[k] else default
  }

  /** Python truthiness: None, "" and 0 are false. */
  predicate Truthy(v: Value) {
    match v
    case VNone => false
    case VStr(s) => s != ""
    case VNum(n) => n != 0
  }

  /** Python's `a or b`: `a` when it is truthy, `b` otherwise. */
  function Or(a: Value, b: Value): (r: Value)
    ensures Truthy(a) ==> r == a
    ensures !Truthy(a) ==> r == b
  {
    if Truthy(a) then a else b
  }

  /** The string a text field holds; None and numbers give "". The tool only
      ever stores strings or None in its text fields. */
  function TextOf(v: Value): string {
    if v.VStr? then v.s else ""
  }

  /** `str(v)` as an f-string renders it: None is "None", a whole-valued
      float is its digits followed by ".0". */
  function Display(v: Value): (r: string)
    ensures v.VStr? ==> r == v.s
    ensures v.VNone? ==> r == "None"
  {
    match v
    case VNone => "None"
    case VStr(s) => s
    case VNum(n) =>
      (if n < 0 then "-" + NatToDecimal(-n) else NatToDecimal(n)) + ".0"
  }
}
