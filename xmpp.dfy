/** Package `xmpp`'s negotiation vocabulary: session state bits, stream feature
  * descriptors, and the session a feature negotiates over. */
module Xmpp {
  import opened Wrappers
  import opened Xml
  import opened Errors
  import opened Stanza

  /** Named bits of `SessionState`. */
  datatype StateBit = Secure | Authn | Ready | Received

  /** A `SessionState` bitmask, as the set of its bits; the zero mask is `{}`. The
    * numeric values of the bits are not part of this model. */
  type SessionState = set<StateBit>

  /** True when `(state & mask) == mask`. */
  predicate Has(state: SessionState, mask: SessionState)
  {
    mask <= state
  }

  /** A `StreamFeature`. Its three closures are represented by what they capture,
    * `behaviour`; each feature's module supplies the List, Parse and Negotiate
    * operations that run on it. */
  datatype StreamFeature<B> = StreamFeature(name: Name, necessary: SessionState, prohibited: SessionState, behaviour: B)

  /** A transport a feature may layer under the stream; opaque. */
  datatype Transport = Transport(id: nat)

  /** What a feature's Negotiate returns: the mask to add, an optional replacement
    * transport, and an error. */
  datatype NegotiateResult = NegotiateResult(mask: SessionState, rw: Option<Transport>, err: Option<Error>)

  /** What a feature's Parse returns. */
  datatype ParseResult<D> = ParseResult(req: bool, data: D, err: Option<Error>)

  /** A `*Session` as the features see it: its state, its addresses, the incoming
    * token stream behind a cursor, and the stanzas written to it. When the incoming
    * tokens are exhausted, reading fails with `readFault` (end of file or a transport
    * error); writing fails with `writeFault` when that is set. */
  class Session {
    const state: SessionState
    const remoteAddr: Jid
    var origin: Option<Jid>
    const input: seq<Token>
    var pos: nat
    const readFault: Error
    var sent: seq<WrappedIQ>
    const writeFault: Option<Error>

    constructor (state: SessionState, remoteAddr: Jid, origin: Option<Jid>, input: seq<Token>, readFault: Error, writeFault: Option<Error>)
      ensures this.state == state && this.remoteAddr == remoteAddr && this.origin == origin
      ensures this.input == input && pos == 0 && this.readFault == readFault
      ensures sent == [] && this.writeFault == writeFault
    {
      this.state := state;
      this.remoteAddr := remoteAddr;
      this.origin := origin;
      this.input := input;
      pos := 0;
      this.readFault := readFault;
      sent := [];
      this.writeFault := writeFault;
    }

    /** What a read at cursor position `p` yields. */
    function TokenAt(p: nat): (r: Result<Token, Error>)
      ensures r.Ok? <==> p < |input|
      ensures r.Ok? ==> r.value == input[p]
      ensures r.Err? ==> r.error == readFault
    {
      if p < |input| then Ok(input[p]) else Err(readFault)
    }

    /** The next top-level token (`xml.Decoder.Token` over the session). */
    method NextToken() returns (r: Result<Token, Error>)
      modifies this`pos
      ensures r == TokenAt(old(pos))
      ensures pos == if old(pos) < |input| then old(pos) + 1 else old(pos)
    {
      r := TokenAt(pos);
      if pos < |input| {
        pos := pos + 1;
      }
    }

    /** Copies a stanza to the session (`xmlstream.Copy` of its token reader). */
    method Send(w: WrappedIQ) returns (err: Option<Error>)
      modifies this`sent
      ensures err == writeFault
      ensures sent == if err.None? then old(sent) + [w] else old(sent)
    {
      err := writeFault;
      if err.None? {
        sent := sent + [w];
      }
    }
  }
}
