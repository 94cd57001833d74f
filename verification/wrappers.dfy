/** Optional values and outcomes: the model replaces Python's None sentinels
    and raised exceptions with these explicit datatypes. */
module Wrappers {

  /** A value that may be absent (Python's `None`). */
  datatype Option<+T> = None | Some(value: T)

  /** A computation that either produced a value or raised an exception. */
  datatype Result<+T, +E> = Success(value: T) | Failure(error: E)
}

/** The exceptions of the ingestion script that the model tells apart. */
module Errors {

  datatype Error =
    /** `requests.exceptions.RequestException`: transport error, HTTP error status,
        or a body that does not decode as JSON. */
    | RequestFailed
    /** A JSON element that is not an object: `crypto['id']` or `crypto_data.get(...)` raises. */
    | NotAMapping
    /** A catalog element without an `id` key: `KeyError`. */
    | MissingId
    /** A record to insert whose `id` is neither a string nor null; Postgres
        coercion of such a key is not modelled. */
    | UnsupportedId
    /** A row whose primary key is null: the database's not-null constraint rejects it. */
    | NullId
    /** The database rejects the statement or the connection is lost. */
    | StoreFailed
    /** `random.sample` with a negative count: `ValueError`. */
    | NegativeSample
    /** `conn` read in `finally` after `psycopg2.connect` raised: `UnboundLocalError`. */
    | ConnectionUnbound
}
