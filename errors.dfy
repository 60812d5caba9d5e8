/** The error values the core produces or inspects. Go's `error` interface is split by
  * dynamic type, because the server side of resource binding branches on whether an
  * error is a `stanza.Error` value (bind.go type-asserts it). */
module Errors {
  import opened Wrappers

  /** Stream-level conditions of package `stream` that the core returns. */
  datatype StreamError = BadFormat | UndefinedCondition

  /** A condition name other than `bad-request`. */
  type OtherConditionName = c: string | c != "bad-request" witness ""

  /** Stanza error conditions; only `bad-request` is named by the core, and each
    * condition name has exactly one representation. */
  datatype Condition = BadRequest | OtherCondition(name: OtherConditionName)

  /** A `stanza.Error`: its condition and optional human-readable text. */
  datatype StanzaError = StanzaError(condition: Condition, text: string)

  datatype Error =
    | StreamErr(stream: StreamError)
      // a `stanza.Error` value
    | StanzaErr(stanza: StanzaError)
      // a `*stanza.Error`, possibly nil, returned as an error
    | StanzaErrRef(ref: Option<StanzaError>)
      // any other error: I/O, XML decoding, JID validation, an allocator's own failure
    | Fault(cause: string)
}
