/** The dynamically typed values that the modelled Python code stores,
    compares and tests for truth. */
module PyValue {

  datatype Value =
    | PyNone
    | PyBool(b: bool)
    | PyInt(i: int)
    | PyFloat(r: real)
    | PyStr(s: string)

  /** Python's truth test: None, False, 0, 0.0 and "" are false. */
  predicate Truthy(v: Value) {
    match v
    case PyNone => false
    case PyBool(b) => b
    case PyInt(i) => i != 0
    case PyFloat(r) => r != 0.0
    case PyStr(s) => s != ""
  }

  /** The type tag `type(v)` compares. */
  datatype Type = NoneType | BoolType | IntType | FloatType | StrType

  function TypeOf(v: Value): Type {
    match v
    case PyNone => NoneType
    case PyBool(_) => BoolType
    case PyInt(_) => IntType
    case PyFloat(_) => FloatType
    case PyStr(_) => StrType
  }
}
