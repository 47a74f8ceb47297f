/**
 * The `MaybeError` result types of the live connector: a value of `T` or an
 * error, never both. `Error.hpp` lets the error type vary; `Error.h` fixes it
 * to `Error`, a record holding one message, and keeps the variant constant.
 */
module MaybeError {

  /** `GenericError` of Error.hpp and `Error` of Error.h: a single message. */
  datatype GenericError = GenericError(message: string)

  /** What `operator<<` writes for an error: its message and nothing else. */
  function Streamed(e: GenericError): (out: string)
    ensures out == e.message
  {
    e.message
  }

  /** The `std::variant<T, ErrorT>` inside a `MaybeError`. */
  datatype MaybeError<T, E> = FromValue(val: T) | FromError(err: E)
  {
    /** `explicit operator bool`: true when no error is held. */
    predicate Ok()
    {
      !FromError?
    }

    /** `Value()`, which throws unless a value is held. */
    function Value(): T
      requires Ok()
    {
      val
    }

    /** `Error()`, which throws unless an error is held. */
    function Error(): E
      requires !Ok()
    {
      err
    }
  }

  /** `MaybeError<T>` of Error.h: the error type is the message record. */
  type Outcome<T> = MaybeError<T, GenericError>

  /** Built from a value: converts to true and gives the value back. */
  lemma FromValueIsOk<T, E>(v: T)
    ensures MaybeError<T, E>.FromValue(v).Ok()
    ensures MaybeError<T, E>.FromValue(v).Value() == v
  {
  }

  /** Built from an error: converts to false and gives the error back. */
  lemma FromErrorIsNotOk<T, E>(e: E)
    ensures !MaybeError<T, E>.FromError(e).Ok()
    ensures MaybeError<T, E>.FromError(e).Error() == e
  {
  }

  /** Every `MaybeError` holds exactly one of the two: the conversion tells which. */
  lemma OkExactlyWhenValue<T, E>(m: MaybeError<T, E>)
    ensures m.Ok() <==> exists v :: m == FromValue(v)
    ensures !m.Ok() <==> exists e :: m == FromError(e)
  {
    if m.Ok() {
      assert m == FromValue(m.val);
    } else {
      assert m == FromError(m.err);
    }
  }
}
