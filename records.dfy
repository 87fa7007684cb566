/** The values the JSON-RPC client hands to the controller, the Python
    exceptions the core raises or lets through, and the small part of
    Python's dict and number semantics the core depends on. */
module Records {

  datatype Option<+T> = None | Some(value: T)

  /** The Python exceptions that matter to the core. */
  datatype PyError =
    | KeyError(key: string)         // d[key] on a dict without that key
    | TypeError                     // subscript, item assignment, arithmetic or iteration on the wrong kind of value
    | ValueError                    // float() of a string
    | UnboundLocal(name: string)    // a local variable read before any assignment
    | FileNotFound(path: string)    // os.mkdir with a missing parent
    | FileExists(path: string)      // os.mkdir of an existing path
    | NotADirectory(path: string)   // os.mkdir below a regular file
    | CacheDirNotADirectory         // raised by GetThumbnail itself
    | External(reason: string)      // raised by the JSON-RPC client or the HTTP library

  /** A value, or the exception that was raised instead. */
  datatype Result<+T> = Ok(value: T) | Err(error: PyError)

  /** How a procedure that returns nothing ended. */
  datatype Outcome = Done | Raised(error: PyError)

  /** A decoded JSON value. Python's int and float are both `Num`. */
  datatype Value =
    | Null
    | Bool(b: bool)
    | Num(n: real)
    | Str(s: string)
    | List(items: seq<Value>)
    | Obj(fields: map<string, Value>)

  /** `v[key]` for a string key: a dict yields the entry or raises KeyError;
      any other value raises TypeError (lists and strings want integer
      indices, the rest are not subscriptable). */
  function GetItem(v: Value, key: string): Result<Value>
  {
    if !v.Obj? then Err(TypeError)
    else if key in v.fields then Ok(v.fields[key])
    else Err(KeyError(key))
  }

  /** The number a value stands for in Python arithmetic (bool is a
      subclass of int), or None when arithmetic on it raises TypeError. */
  function AsNumber(v: Value): Option<real>
  {
    match v
    case Num(n) => Some(n)
    case Bool(b) => Some(if b then 1.0 else 0.0)
    case _ => None
  }

  /** `float(v)`. */
  function ToFloat(v: Value): Result<real>
  {
    match v
    case Num(n) => Ok(n)
    case Bool(b) => Ok(if b then 1.0 else 0.0)
    case Str(_) => Err(ValueError)
    case _ => Err(TypeError)
  }

  /** `v == 0`: true only of numbers equal to zero and of False. */
  predicate IsZero(v: Value)
  {
    AsNumber(v) == Some(0.0)
  }

  /** Iterating a value that is not a list in a loop whose body first
      subscripts each element with a string key: an empty string or dict
      yields no element (None: the loop body never runs); a non-empty one
      yields strings (characters or keys), so the body raises TypeError at
      the first element; any other value is not iterable at all. */
  function NonListIteration(v: Value): Option<PyError>
    requires !v.List?
  {
    match v
    case Str(s) => if s == "" then None else Some(TypeError)
    case Obj(m) => if |m| == 0 then None else Some(TypeError)
    case _ => Some(TypeError)
  }
}
