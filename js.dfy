/**
 * The values the data layer stores: JSON as `JSON.parse` produces it,
 * records (plain objects) as maps from field name to value, and the few
 * pieces of JavaScript semantics the source relies on: truthiness, the
 * `undefined` of a missing field, `String(v)`, and the array searches
 * `find`/`findIndex`/`filter`.
 */
module Js {
  import Text

  datatype Option<+T> = None | Some(value: T)

  /** A call that returns a value, or one that throws / reports the given message. */
  datatype Result<+T> = Ok(value: T) | Err(message: string)

  /** A JSON value. Numbers are integers in this model. */
  datatype Json =
    | Null
    | Bool(b: bool)
    | Num(n: int)
    | Str(s: string)
    | Arr(items: seq<Json>)
    | Obj(fields: map<string, Json>)

  /** A plain object: JavaScript's `{...}` spread is Dafny's right-biased map union `+`. */
  type Record = map<string, Json>

  /** `r.k`; `None` is `undefined`. */
  function Get(r: Record, k: string): Option<Json> {
    if k in r then Some(r[k]) else None
  }

  /** JavaScript truthiness of a value that may be `undefined`. */
  predicate Truthy(v: Option<Json>) {
    match v
    case None => false
    case Some(j) =>
      match j
      case Null => false
      case Bool(b) => b
      case Num(n) => n != 0
      case Str(s) => s != ""
      case Arr(_) => true
      case Obj(_) => true
  }

  /**
   * `r.k = v` as seen after the record has been serialised: a field whose
   * value is `undefined` is dropped by `JSON.stringify`.
   */
  function Put(r: Record, k: string, v: Option<Json>): (r': Record)
    ensures Get(r', k) == v
    ensures forall k' :: k' != k ==> Get(r', k') == Get(r, k')
  {
    if v.Some? then r[k := v.value] else r - {k}
  }

  /** The string held by a text field, `""` when it is missing or not a string. */
  function TextOf(v: Option<Json>): string {
    if v.Some? && v.value.Str? then v.value.s else ""
  }

  /** `String(v)`, as template literals and property keys use it. */
  function ToJsString(v: Option<Json>): string {
    match v
    case None => "undefined"
    case Some(j) => Render(j)
  }

  function Render(j: Json): string {
    match j
    case Null => "null"
    case Bool(b) => if b then "true" else "false"
    case Num(n) => if n < 0 then "-" + Text.Decimal(-n) else Text.Decimal(n)
    case Str(s) => s
    case Arr(items) =>
      // Array.prototype.join: null and undefined elements render as "".
      Text.Join(seq(|items|, i requires 0 <= i < |items| =>
                      if items[i].Null? then "" else Render(items[i])), ',')
    case Obj(_) => "[object Object]"
  }

  /** `Math.min` on naturals. */
  function Min(a: nat, b: nat): nat {
    if a < b then a else b
  }

  /** `s.findIndex(p)`, with `None` for -1 (and `s.find(p)` is `s[i]` for `Some(i)`). */
  function FirstWhere<T>(s: seq<T>, p: T -> bool): (r: Option<nat>)
    ensures r.Some? ==> r.value < |s| && p(s[r.value])
    ensures r.Some? ==> forall j :: 0 <= j < r.value ==> !p(s[j])
    ensures r.None? <==> forall j :: 0 <= j < |s| ==> !p(s[j])
  {
    if |s| == 0 then None
    else if p(s[0]) then Some(0)
    else match FirstWhere(s[1..], p)
      case None => None
      case Some(i) => Some(i + 1)
  }

  /** `s.filter(p)`: the elements satisfying `p`, in their original order. */
  function Filter<T>(s: seq<T>, p: T -> bool): (r: seq<T>)
    ensures |r| <= |s|
    ensures forall i :: 0 <= i < |r| ==> r[i] in s && p(r[i])
    ensures forall j :: 0 <= j < |s| && p(s[j]) ==> s[j] in r
    ensures |r| == |s| <==> forall j :: 0 <= j < |s| ==> p(s[j])
  {
    if |s| == 0 then []
    else if p(s[0]) then [s[0]] + Filter(s[1..], p)
    else Filter(s[1..], p)
  }

  /** Filtering keeps relative order: it distributes over concatenation. */
  lemma {:induction false} FilterAppend<T>(a: seq<T>, b: seq<T>, p: T -> bool)
    ensures Filter(a + b, p) == Filter(a, p) + Filter(b, p)
  {
    if |a| > 0 {
      assert (a + b)[1..] == a[1..] + b;
      FilterAppend(a[1..], b, p);
    } else {
      assert a + b == b;
    }
  }

  /** The number of elements satisfying `p`. */
  function CountWhere<T>(s: seq<T>, p: T -> bool): (n: nat)
    ensures n <= |s|
  {
    if |s| == 0 then 0 else (if p(s[0]) then 1 else 0) + CountWhere(s[1..], p)
  }

  /** `s.filter(p).length` is the number of elements satisfying `p`. */
  lemma {:induction false} FilterLength<T>(s: seq<T>, p: T -> bool)
    ensures |Filter(s, p)| == CountWhere(s, p)
  {
    if |s| > 0 {
      FilterLength(s[1..], p);
    }
  }
}
