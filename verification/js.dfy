/** JavaScript values as the controllers and pages see them in JSON documents. */
module Js {

  datatype Option<+T> = None | Some(value: T)

  /** A scalar JavaScript value. A JSON body never holds `Undefined`; the code produces
      it by reading a missing property or the email of a token that carries none. */
  datatype Value =
    | Undefined
    | Null
    | Bool(b: bool)
    | Num(n: real)
    | Str(s: string)

  type FieldName = string

  /** A plain object whose properties hold scalars: a request body, a stored document,
      a form state or a list entry. A missing key is an absent property. */
  type Doc = map<FieldName, Value>

  /** `!!v`: false exactly for undefined, null, false, 0 and the empty string. */
  predicate Truthy(v: Value)
  {
    match v
    case Undefined => false
    case Null => false
    case Bool(b) => b
    case Num(n) => n != 0.0
    case Str(s) => s != ""
  }

  /** `d[f]` for a name not inherited from `Object.prototype` (`owner`, `id`, `precio`
      and the required fields all qualify): a missing property reads as undefined. */
  function Field(d: Doc, f: FieldName): (v: Value)
    ensures v != Undefined ==> f in d && d[f] == v
  {
    if f in d then d[f] else Undefined
  }

  /** No property holds undefined: what `JSON.parse` yields, and what the store accepts. */
  predicate Defined(d: Doc)
  {
    forall f :: f in d ==> d[f] != Undefined
  }

  /** `x?.email` read as a JavaScript value. */
  function OrUndefined(s: Option<string>): (v: Value)
    ensures v == Undefined <==> s.None?
  {
    match s
    case Some(e) => Str(e)
    case None => Undefined
  }
}
