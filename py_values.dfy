/** Python values and exceptions as the backend sees them: JSON bodies, keyword arguments, errors. */
module PyValues {
  import opened Wrappers
  import opened DecimalText
  import opened PyText

  /** A decimal number held as an integer count of units of 10^-SCALE_DIGITS. */
  type Scaled = int

  const ONE: Scaled := Pow10(SCALE_DIGITS)

  /** The classes of exception that decide how an error is reported. */
  datatype ErrorKind =
    | ValueError
    | TypeError
    | AttributeError
    | ZeroDivisionError
    | BinanceApiError
    | BinanceOrderError
    | OtherError

  /** A raised exception: its class and `str(e)`. */
  datatype PyError = PyError(kind: ErrorKind, message: string)

  function ValueErr(message: string): (e: PyError)
    ensures e.kind == ValueError && e.message == message
  {
    PyError(ValueError, message)
  }

  /** A Python value decoded from JSON or passed as a keyword argument; a float is held scaled. */
  datatype Value =
    | NoneValue
    | Bool(b: bool)
    | Int(i: int)
    | Float(x: Scaled)
    | Str(s: string)
    | List(items: seq<Value>)
    | Dict(entries: map<string, Value>)

  /** Python truthiness. */
  predicate Truthy(v: Value) {
    match v
    case NoneValue => false
    case Bool(b) => b
    case Int(i) => i != 0
    case Float(x) => x != 0
    case Str(s) => s != ""
    case List(items) => items != []
    case Dict(entries) => entries != map[]
  }

  /** `type(v).__name__`, as the interpreter names it in its error messages. */
  function TypeName(v: Value): string {
    match v
    case NoneValue => "NoneType"
    case Bool(_) => "bool"
    case Int(_) => "int"
    case Float(_) => "float"
    case Str(_) => "str"
    case List(_) => "list"
    case Dict(_) => "dict"
  }

  /** The AttributeError raised by `v.name` when `v` has no such attribute. */
  function NoAttribute(v: Value, name: string): (e: PyError)
    ensures e.kind == AttributeError
  {
    PyError(AttributeError, "'" + TypeName(v) + "' object has no attribute '" + name + "'")
  }

  /**
   * `float(v)`. Converting text is the interpreter's float syntax, given as `parse`
   * (None where Python raises ValueError); None, lists and dicts raise TypeError.
   */
  function PyFloat(v: Value, parse: string -> Option<Scaled>): (r: Result<Scaled, PyError>)
    ensures v.Float? ==> r == Success(v.x)
    ensures v.Int? ==> r == Success(v.i * ONE)
    ensures v.Bool? ==> r == Success(if v.b then ONE else 0)
    ensures v.Str? ==> (r.Success? <==> parse(v.s).Some?)
    ensures v.Str? && parse(v.s).Some? ==> r.value == parse(v.s).value
    ensures r.Failure? ==> (r.error.kind == ValueError <==> v.Str?)
    ensures (v.NoneValue? || v.List? || v.Dict?) ==> r.Failure? && r.error.kind == TypeError
  {
    match v
    case Bool(b) => Success(if b then ONE else 0)
    case Int(i) => Success(i * ONE)
    case Float(x) => Success(x)
    case Str(s) =>
      (match parse(s)
       case Some(x) => Success(x)
       case None => Failure(ValueErr("could not convert string to float: '" + s + "'")))
    case _ => Failure(PyError(TypeError, "float() argument must be a string or a real number, not '" + TypeName(v) + "'"))
  }
}
