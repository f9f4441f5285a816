/**
 * Python values as the spiders see them: JSON-like values, dictionaries,
 * truthiness, the exceptions that can end a callback, and the requests and
 * partially-consumed generators that the callbacks produce.
 */
module Values {

  datatype Option<+T> = None | Some(value: T) {
    predicate IsFailure() { None? }
    function PropagateFailure<U>(): Option<U> requires None? { None }
    function Extract(): T requires Some? { value }
  }

  /** The Python exceptions a callback can raise on malformed input. */
  datatype Error =
    | KeyError(key: string)
    | IndexError
    | TypeError
    | AttributeError
    | ValueError(text: string)
    | AssertionError
    | Exception(message: string)

  datatype Result<+T> = Ok(value: T) | Err(error: Error) {
    predicate IsFailure() { Err? }
    function PropagateFailure<U>(): Result<U> requires Err? { Err(error) }
    function Extract(): T requires Ok? { value }
  }

  /** A JSON-serialisable Python value. Dictionary key order is not modelled. */
  datatype Value =
    | Null
    | Bool(b: bool)
    | Int(i: int)
    | Real(r: real)
    | Str(s: string)
    | List(items: seq<Value>)
    | Dict(fields: map<string, Value>)

  type Record = map<string, Value>

  /** Python truthiness (`if v:`). */
  predicate Truthy(v: Value) {
    match v
    case Null => false
    case Bool(b) => b
    case Int(i) => i != 0
    case Real(r) => r != 0.0
    case Str(s) => s != []
    case List(xs) => xs != []
    case Dict(m) => m != map[]
  }

  /** `Optional[str]` as a value: None becomes JSON null. */
  function OptStr(o: Option<string>): (v: Value)
    ensures o.None? <==> v == Null
    ensures o.Some? ==> v == Str(o.value)
  {
    match o
    case None => Null
    case Some(s) => Str(s)
  }

  /** `d.get(k)`: the value under `k`, or None (null) when the key is missing. */
  function Get(d: Record, k: string): (v: Value)
    ensures k in d ==> v == d[k]
    ensures k !in d ==> v == Null
  {
    if k in d then d[k] else Null
  }

  /** `d[k]`: raises KeyError when the key is missing. */
  function Index(d: Record, k: string): (r: Result<Value>)
    ensures r.Ok? <==> k in d
    ensures r.Ok? ==> r.value == d[k]
    ensures r.Err? ==> r.error == KeyError(k)
  {
    if k in d then Ok(d[k]) else Err(KeyError(k))
  }

  /** `{**base, **attributes}`: keys of `attributes` win on collision. */
  function Merge(base: Record, attributes: Record): (r: Record)
    ensures r.Keys == base.Keys + attributes.Keys
    ensures forall k :: k in attributes ==> r[k] == attributes[k]
    ensures forall k :: k in base && k !in attributes ==> r[k] == base[k]
  {
    base + attributes
  }

  /** `d.pop(k, None)` as far as the dictionary is concerned. */
  function Pop(d: Record, k: string): (r: Record)
    ensures k !in r
    ensures r.Keys == d.Keys - {k}
    ensures forall j :: j in r ==> r[j] == d[j]
  {
    d - {k}
  }

  /** A request handed to the crawl engine: the URL (absolute, or a href for
      `response.follow`) and the keyword argument dictionary passed to the
      callback (`base` or `parent`). */
  datatype Request = Request(url: string, context: Record)

  /** What a generator callback has produced when it stops: the items it
      yielded, and the exception that ended it early, if any. */
  datatype Yielded<T> = Yielded(items: seq<T>, failure: Option<Error>)

  /** Appending one element and then the rest is appending both. */
  lemma SnocThenRest<T>(done: seq<T>, x: T, rest: seq<T>)
    ensures done + ([x] + rest) == (done + [x]) + rest
  {
  }
}
