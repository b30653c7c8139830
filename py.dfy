/**
 * The Python values the pipeline stores and passes around: the JSON subset
 * of Python's objects (tasks are dicts, the store is a dict holding a list),
 * with Python's truthiness, dict.get, equality, str() and the way a `for`
 * loop walks a value. An exception is modelled as a reply that carries no
 * value.
 */
module Py {
  import opened Text

  /** A JSON value as json.load builds it; floats are not modelled. */
  datatype Value =
    | Null
    | Bool(b: bool)
    | Int(i: int)
    | Str(s: string)
    | List(items: seq<Value>)
    | Dict(entries: map<string, Value>)

  /** The outcome of a Python call: the value it returned, or an exception it raised. */
  datatype Reply<+T> = Returned(value: T) | Raised

  datatype Option<+T> = None | Some(value: T)

  /** bool(v): false for None, False, 0 and empty strings, lists and dicts. */
  predicate Truthy(v: Value) {
    match v
    case Null => false
    case Bool(b) => b
    case Int(i) => i != 0
    case Str(s) => s != []
    case List(xs) => xs != []
    case Dict(m) => m != map[]
  }

  /** d.get(key, default). */
  function Get(d: map<string, Value>, key: string, default: Value): Value {
    if key in d then d[key] else default
  }

  /** a == b for scalars: True equals 1 and False equals 0; other values are equal when they are the same value. */
  predicate Equal(a: Value, b: Value) {
    match (a, b)
    case (Bool(x), Int(i)) => i == (if x then 1 else 0)
    case (Int(i), Bool(x)) => i == (if x then 1 else 0)
    case _ => a == b
  }

  /** str(v) for None, bools, ints and strings; lists and dicts get a placeholder. */
  function Show(v: Value): string {
    match v
    case Null => "None"
    case Bool(b) => if b then "True" else "False"
    case Int(i) => IntToString(i)
    case Str(s) => s
    case List(_) => "[...]"
    case Dict(_) => "{...}"
  }

  /**
   * The items a `for x in v` loop hands to a body that uses each x as a dict.
   * A list gives its items. An empty string or dict gives none. A non-empty
   * string or dict gives strings (characters or keys), and the body raises on
   * the first one; None, bools and ints are not iterable.
   */
  function LoopItems(v: Value): (r: Reply<seq<Value>>)
    ensures r.Returned? <==> v.List? || v == Str([]) || v == Dict(map[])
    ensures v.List? ==> r == Returned(v.items)
    ensures r.Returned? && !v.List? ==> r.value == []
  {
    match v
    case List(xs) => Returned(xs)
    case Str(s) => if s == [] then Returned([]) else Raised
    case Dict(m) => if m == map[] then Returned([]) else Raised
    case _ => Raised
  }
}
