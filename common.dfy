/** Types shared by the stores, the ingestion step and the resampler. */
module Common {

  /** A trading symbol such as "BTCUSDT". */
  type Symbol = string

  /** An instant, as whole seconds since 1970-01-01T00:00:00Z. */
  type Timestamp = int

  /** 1970-01-01T00:00:00Z, the watermark used when a symbol has no aggregate yet. */
  const Epoch: Timestamp := 0

  datatype Option<T> = None | Some(value: T)

  /** What a failing database or parsing step raises. */
  datatype Error =
    | DuplicateKey     // primary-key violation on insert
    | StorageFault     // the storage engine refused the commit
    | NotNumeric       // a strict numeric parse met a non-numeric text
    | EmptyFrame       // the first row of an empty table was read
    | UnknownColumn    // a record names a column the mapped table lacks

  /** The value of an operation that may raise. */
  datatype Result<T> = Ok(value: T) | Err(error: Error)

  /** The result of an operation that returns nothing but may raise. */
  datatype Outcome = Done | Failed(error: Error)

  /** A price cell of a table handed to the resampler: SQL NULL (pandas NaN), a number, or a text. */
  datatype Cell = Missing | Number(v: real) | Text(s: string)

  /** One row of the `(timestamp, price, symbol)` table the resampler consumes. */
  datatype Row = Row(timestamp: Timestamp, price: Cell, symbol: Symbol)
}
