/**
 * The dynamically typed tree the path engine walks (the shape a JSON decoder
 * produces: string-keyed mappings, sequences and scalar leaves) and the
 * error values the four operations return.
 */
module Values {
  import Digits

  datatype Option<+T> = None | Some(value: T)

  /** A node of the tree; Null is Go's nil interface value. */
  datatype Value =
    | Obj(fields: map<string, Value>)
    | Arr(items: seq<Value>)
    | Str(text: string)
    | Num(number: int)
    | Bool(flag: bool)
    | Null

  /** A document: the top-level mapping handed to every operation. */
  type Doc = map<string, Value>

  /** The errors of gjm.go, each carrying what its message interpolates. */
  datatype Error =
    | NotExist(name: string)             // "Property <name> does not exist"
    | NotAnArray(name: string)           // "<name>: is not an array"
    | OutOfRange(name: string, length: nat) // "<name>: Min index is 0, Max index is <length>"
    | AlreadyExists(path: string)        // "Property <path> already exists"

  datatype Result<+T> = Ok(value: T) | Err(error: Error)

  /** What a mutating operation leaves behind: the caller's map after the call, and the returned error. */
  datatype Outcome = Outcome(data: Doc, err: Option<Error>)

  function ErrorOf<T>(r: Result<T>): Option<Error> {
    if r.Err? then Some(r.error) else None
  }

  /** The text of each error, as fmt.Errorf formats it. */
  function Message(e: Error): (m: string)
    ensures e.NotExist? ==> "Property " + e.name <= m
    ensures e.NotAnArray? || e.OutOfRange? ==> e.name + ": " <= m
    ensures e.AlreadyExists? ==> "Property " + e.path <= m
  {
    match e
    case NotExist(name) => "Property " + name + " does not exist"
    case NotAnArray(name) => name + ": is not an array"
    case OutOfRange(name, length) => name + ": Min index is 0, Max index is " + Digits.Decimal(length)
    case AlreadyExists(path) => "Property " + path + " already exists"
  }
}
