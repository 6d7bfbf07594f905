/** Fields of a JSON request body as the listing handlers see them, with the JavaScript
    coercions the handlers apply (truthiness, `isNaN`, `toString`) and the casts the
    document schema applies when a value is stored. Numbers are integers. */
module RequestValues {
  import opened Options
  import opened Text

  /** `Missing` stands for both `undefined` and `null`. */
  datatype Value = Missing | Num(n: int) | Str(s: string) | List(items: seq<string>)

  /** JavaScript truthiness: absent values, 0 and "" are falsy; every array is truthy. */
  predicate Truthy(v: Value) {
    match v
    case Missing => false
    case Num(n) => n != 0
    case Str(s) => s != ""
    case List(_) => true
  }

  /** `Number(v)`; `None` is NaN. The empty string and the empty array read as 0, and a
      one-element array reads as its element. */
  function ToNumber(v: Value): Option<int> {
    match v
    case Missing => None
    case Num(n) => Some(n)
    case Str(s) => if s == "" then Some(0) else ParseInteger(s)
    case List(items) =>
      if |items| == 0 then Some(0)
      else if |items| == 1 then (if items[0] == "" then Some(0) else ParseInteger(items[0]))
      else None
  }

  /** The global `isNaN(v)`. */
  predicate IsNaN(v: Value) {
    ToNumber(v).None?
  }

  /** `v.toString()`; `None` when it throws (on undefined or null). Arrays join with ",". */
  function ToText(v: Value): Option<string> {
    match v
    case Missing => None
    case Num(n) => Some(Decimal(n))
    case Str(s) => Some(s)
    case List(items) => Some(Join(items, ","))
  }

  /** The schema's cast to Number: numbers and integer text; anything else fails. */
  function CastNumber(v: Value): (r: Option<int>)
    ensures v.Num? ==> r == Some(v.n)
    ensures r.Some? ==> ToNumber(v) == r
  {
    match v
    case Num(n) => Some(n)
    case Str(s) => ParseInteger(s)
    case _ => None
  }

  /** The schema's cast to String: numbers print in decimal, arrays fail. */
  function CastString(v: Value): (r: Option<string>)
    ensures v.Str? ==> r == Some(v.s)
    ensures r.Some? ==> ToText(v) == r
  {
    match v
    case Num(n) => Some(Decimal(n))
    case Str(s) => Some(s)
    case _ => None
  }

  /** The schema's cast to an array of strings: a single value becomes a one-element array. */
  function CastStringList(v: Value): (r: Option<seq<string>>)
    ensures r.None? <==> v.Missing?
    ensures v.List? ==> r == Some(v.items)
    ensures !v.List? && r.Some? ==> |r.value| == 1
    ensures r.Some? ==> Join(r.value, ",") == ToText(v).value
  {
    match v
    case List(items) => Some(items)
    case Str(s) => Some([s])
    case Num(n) => Some([Decimal(n)])
    case Missing => None
  }
}
