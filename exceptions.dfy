/**
 * The Python exceptions that the modelled code raises or lets through.
 * An operation that can raise returns a Result whose failure side is an Exc.
 */
module Exceptions {

  datatype Exc =
    /** `raise SystemExit` (no message) or `raise SystemExit(message)`. */
    | SystemExit(message: string)
    /** A SystemExit whose message is `message` followed by a rendering of `table`, one row per error. */
    | SystemExitWithTable(message: string, table: seq<seq<string>>)
    | KeyError(key: string)
    | IndexError
    | TypeError
    | AttributeError
    | ValueError(message: string)
    | RuntimeError(message: string)
    | DatasetValidationError(message: string)
    | DuplicateError(message: string)
}
