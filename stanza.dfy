/** External collaborators of the bind feature, as opaque values: JIDs (package `jid`)
  * and IQ stanzas (package `stanza`). Their parsing, validation and serialisation are
  * not part of this model. */
module Stanza {
  import opened Wrappers
  import opened Xml
  import opened Errors

  /** A JID, opaque apart from its string form (`jid.JID.String`). */
  datatype Jid = Jid(text: string)
  {
    function String(): string { text }
  }

  /** A `type` attribute value that is none of the four named IQ types. */
  type OtherIQType = t: string | t !in {"get", "set", "result", "error"} witness ""

  /** `stanza.IQType`: the four types of RFC 6120 section 8.2.3, and whatever else a
    * peer may put in the `type` attribute. Go compares the attribute as a string, so
    * each string has exactly one representation here. */
  datatype IQType = GetIQ | SetIQ | ResultIQ | ErrorIQ | UnknownIQ(value: OtherIQType)

  /** The header fields of a `stanza.IQ`; `None` stands for a nil JID. */
  datatype IQ = IQ(id: string, from: Option<Jid>, to: Option<Jid>, iqType: IQType)

  /** The payload handed to `stanza.WrapIQ`: the token stream of a stanza error
    * (`stanza.Error.TokenReader`, its tokens not modelled), or plain tokens. */
  datatype Payload = ErrorPayload(err: StanzaError) | Tokens(toks: seq<Token>)

  /** The token reader `stanza.WrapIQ(to, typ, payload)` returns, recorded by its three
    * arguments: an IQ envelope carries only the recipient and the type. */
  datatype WrappedIQ = WrapIQ(to: Option<Jid>, iqType: IQType, payload: Payload)
}
