/** Python exceptions that the pipeline raises and does not catch, as values. */
module Errors {

  datatype Error =
    | ZeroDivisionError           // `x / 0.0`
    | KeyError(key: string)       // `d[k]` with `k` not a key of `d`
    | IndexError                  // `xs[i]` out of range, `random.choice([])`

  datatype Result<+T> = Ok(value: T) | Err(error: Error)
}
