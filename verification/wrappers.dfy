/** Option and Result values shared by every module of the model. */
module Wrappers {

  datatype Option<+T> = None | Some(value: T) {
    predicate IsSome() { Some? }

    function GetOr(default: T): T {
      match this
      case Some(v) => v
      case None => default
    }
  }

  /**
   * The outcome of an operation that can fail with a message. `Err`
   * carries the text the source attaches to its error (anyhow's `{:#}`
   * rendering joins contexts with ": ").
   */
  datatype Result<+T> = Ok(value: T) | Err(error: string) {
    predicate IsFailure() { Err? }

    function PropagateFailure<U>(): Result<U>
      requires Err?
    {
      Err(error)
    }

    function Extract(): T
      requires Ok?
    {
      value
    }

    /** anyhow's `.context(c)`: a failure gains `c` as its outermost context. */
    function Context(c: string): Result<T> {
      match this
      case Ok(v) => Ok(v)
      case Err(e) => Err(c + ": " + e)
    }
  }

  /** Decimal spelling of a natural number, as `format!("{}")` writes it. */
  function NatToString(n: nat): string
    decreases n
  {
    if n < 10 then [DigitChar(n)]
    else NatToString(n / 10) + [DigitChar(n % 10)]
  }

  function DigitChar(d: nat): char
    requires d < 10
  {
    ['0','1','2','3','4','5','6','7','8','9'][d]
  }
}
