/** JavaScript values as the client code sees them: nullable columns,
    truthiness, numbers produced by parseFloat, and form fields. */
module Common {

  /** A nullable value: `null`/`undefined` is `None`. */
  datatype Option<+T> = None | Some(value: T) {
    function GetOr(default: T): T {
      match this
      case Some(v) => v
      case None => default
    }
  }

  type UserId = string
  type JobId = string
  type TaskId = string

  /** An ISO timestamp produced by `new Date().toISOString()`; opaque here. */
  type Timestamp = string

  /** JavaScript truthiness of a nullable string: `null` and `""` are falsy. */
  predicate Present(o: Option<string>) {
    o.Some? && o.value != ""
  }

  /** A JavaScript number as `parseFloat` can return it. */
  datatype JsNumber = NaN | Finite(value: real) | PosInfinity | NegInfinity {

    /** `isNaN(n)` */
    predicate IsNaN() { NaN? }

    /** `n < 0`; every comparison with NaN is false. */
    predicate Negative() {
      (Finite? && value < 0.0) || NegInfinity?
    }

    /** `n > bound`; every comparison with NaN is false. */
    predicate Exceeds(bound: real) {
      (Finite? && value > bound) || PosInfinity?
    }
  }

  /** The value of a budget field in a form. `Blank` is the empty string (or
      a missing budget), `Typed` a non-empty string the user entered, whose
      `parseFloat` result is `parsed`, and `Stored` a number loaded from the
      job row before the user touched the field. */
  datatype BudgetInput = Blank | Typed(parsed: JsNumber) | Stored(amount: real) {

    /** `if (budget)`: the empty string and the number 0 are falsy. */
    predicate Truthy() {
      match this
      case Blank => false
      case Typed(_) => true
      case Stored(a) => a != 0.0
    }

    /** `parseFloat(budget)`; `parseFloat("")` is NaN. */
    function ParseFloat(): JsNumber {
      match this
      case Blank => NaN
      case Typed(p) => p
      case Stored(a) => Finite(a)
    }
  }

  /** A number sent to the backend or kept in a job record: JSON has no NaN
      or Infinity and serialises both as `null`, so only a finite number is
      kept. */
  function AsColumn(n: JsNumber): (r: Option<real>)
    ensures r.Some? <==> n.Finite?
    ensures n.Finite? ==> r == Some(n.value)
  {
    match n
    case Finite(v) => Some(v)
    case _ => None
  }

  /** `budget ? parseFloat(budget) : null` */
  function BudgetOrNull(b: BudgetInput): (r: Option<JsNumber>)
    ensures r.None? <==> !b.Truthy()
    ensures r.Some? ==> r.value == b.ParseFloat()
  {
    if b.Truthy() then Some(b.ParseFloat()) else None
  }
}
