/** Resource binding (bind.go): the stream feature that assigns the session its full
  * address, negotiated with one IQ round trip whose two ends live in one Negotiate. */
module Bind {
  import opened Wrappers
  import opened Xml
  import opened Errors
  import opened Stanza
  import opened Xmpp

  /** Namespaces of package `internal/ns` (RFC 6120 sections 4.8.3 and 7). */
  const NsClient := "jabber:client"
  const NsBind := "urn:ietf:params:xml:ns:xmpp-bind"

  /** The only top-level element either side accepts during binding. */
  const IQName := Name(NsClient, "iq")

  /** `bindPayload`: the requested resource, or the assigned JID. */
  datatype BindPayload = BindPayload(resource: string, jid: Option<Jid>)

  /** `bindIQ`: an IQ header, its bind payload, and an optional embedded error. */
  datatype BindIQ = BindIQ(iq: IQ, bind: BindPayload, err: Option<StanzaError>)

  /** What allocating an address yields, as Go's `(*jid.JID, error)` pair. */
  datatype AllocResult = AllocResult(jid: Option<Jid>, err: Option<Error>)

  /** The server-side hook of `BindCustom`: given the client's current address and the
    * resource it asked for ("" when none), it returns the address to bind. */
  type Allocator = (Jid, string) -> AllocResult

  /** The bind feature's closures capture only the optional allocator. */
  type BindFeature = StreamFeature<Option<Allocator>>

  /** `bind(server)`: the descriptor shared by `BindResource` and `BindCustom`. */
  function Feature(server: Option<Allocator>): (f: BindFeature)
    ensures f.name == Name(NsBind, "bind")
    ensures f.necessary == {Authn} && f.prohibited == {Ready}
    ensures f.behaviour == server
  {
    StreamFeature(Name(NsBind, "bind"), {Authn}, {Ready}, server)
  }

  /** `BindResource()`: binding with a random server-chosen resource. */
  function BindResource(): (f: BindFeature)
    ensures f.name == Name(NsBind, "bind")
    ensures f.necessary == {Authn} && f.prohibited == {Ready}
    ensures f.behaviour.None?
  {
    Feature(None)
  }

  /** `BindCustom(server)`: binding whose server side asks `server` for the address. */
  function BindCustom(server: Option<Allocator>): (f: BindFeature)
    ensures f.necessary == {Authn} && f.prohibited == {Ready}
    ensures f.behaviour == server
  {
    Feature(server)
  }

  /** A nil hook makes `BindCustom` the same feature as `BindResource`. */
  lemma BindCustomNilIsBindResource()
    ensures BindCustom(None) == BindResource()
  {
  }

  /** `xmlstream.Wrap` of one character-data token in an unqualified element. */
  function TextElement(local: string, text: string): (toks: seq<Token>)
    ensures |toks| == 3 && toks[0].Start? && toks[2] == End(toks[0].start.End())
    ensures toks[0].start.name == Name("", local) && toks[0].start.attr == []
    ensures toks[1] == CharData(text)
  {
    var start := StartElement(Name("", local), []);
    [Start(start), CharData(text), End(start.End())]
  }

  /** `bindPayload.TokenReader`: a `jid` element when a JID is set, otherwise a
    * `resource` element, each holding the value as text and closed again. */
  function PayloadTokens(bp: BindPayload): (toks: seq<Token>)
    ensures |toks| == 3 && toks[0].Start? && toks[2] == End(toks[0].start.End())
    ensures toks[0].start.name == Name("", if bp.jid.Some? then "jid" else "resource")
    ensures toks[0].start.attr == []
    ensures toks[1] == CharData(if bp.jid.Some? then bp.jid.value.String() else bp.resource)
  {
    if bp.jid.Some? then TextElement("jid", bp.jid.value.String())
    else TextElement("resource", bp.resource)
  }

  /** `bindIQ.TokenReader`: the error payload when an error is embedded, otherwise the
    * bind payload, wrapped with only the IQ's recipient and type. */
  function IQTokens(biq: BindIQ): (w: WrappedIQ)
    ensures w.to == biq.iq.to && w.iqType == biq.iq.iqType
    ensures w.payload.ErrorPayload? <==> biq.err.Some?
    ensures biq.err.Some? ==> w.payload.err == biq.err.value
    ensures biq.err.None? ==> w.payload.toks == PayloadTokens(biq.bind)
  {
    match biq.err
    case Some(e) => WrapIQ(biq.iq.to, biq.iq.iqType, ErrorPayload(e))
    case None => WrapIQ(biq.iq.to, biq.iq.iqType, Tokens(PayloadTokens(biq.bind)))
  }

  /** The id and the sender of an IQ never reach its serialisation. */
  lemma IQTokensIgnoresIdAndFrom(a: BindIQ, b: BindIQ)
    requires a.iq.to == b.iq.to && a.iq.iqType == b.iq.iqType
    requires a.bind == b.bind && a.err == b.err
    ensures IQTokens(a) == IQTokens(b)
  {
  }

  /** The tokens the bind feature advertises: the feature element, empty. */
  function ListTokens(start: StartElement): (toks: seq<Token>)
    ensures toks == [Start(start), End(EndElement(start.name))]
  {
    [Start(start), End(start.End())]
  }

  /** The `List` closure: encode the start element, its end, then flush. Binding is
    * always advertised as mandatory; the first failure is returned at once. */
  method List(e: Encoder, start: StartElement) returns (req: bool, err: Option<Error>)
    requires e.Valid()
    modifies e
    ensures e.Valid()
    ensures req
    ensures e.out == old(e.out) + Emitted(e.capacity, old(|e.out|), ListTokens(start))
    ensures err == if Fits(e.capacity, old(|e.out|), 2) then e.flushFault else Some(e.fault)
    ensures e.flushed == if err.None? then |e.out| else old(e.flushed)
  {
    req := true;
    err := e.EncodeToken(Start(start));
    if err.Some? {
      return;
    }
    err := e.EncodeToken(End(start.End()));
    if err.Some? {
      return;
    }
    err := e.Flush();
  }

  /** The `Parse` closure: decoding the bare `bind` element yields no data; binding is
    * always mandatory. `decodeErr` is what the decoder reported. */
  function Parse(decodeErr: Option<Error>): (r: ParseResult<()>)
    ensures r.req
    ensures r.err == decodeErr
  {
    ParseResult(true, (), decodeErr)
  }

  /** `internal.GetAttr`: the value of the first attribute with the given local name,
    * or "" when there is none. */
  function GetAttr(attrs: seq<Attr>, local: string): (v: string)
    ensures (forall i :: 0 <= i < |attrs| ==> attrs[i].name.local != local) ==> v == ""
    ensures forall i :: (0 <= i < |attrs| && attrs[i].name.local == local &&
      (forall j :: 0 <= j < i ==> attrs[j].name.local != local)) ==> v == attrs[i].value
  {
    if attrs == [] then ""
    else if attrs[0].name.local == local then attrs[0].value
    else GetAttr(attrs[1..], local)
  }

  /** The check both sides apply to the first token they read: it must be a start
    * element named `{jabber:client}iq`; anything else is a bad-format stream error,
    * and a read error is passed on. */
  function ExpectIQ(t: Result<Token, Error>): (r: Result<StartElement, Error>)
    ensures r.Ok? <==> t.Ok? && t.value.Start? && t.value.start.name == IQName
    ensures r.Ok? ==> r.value == t.value.start
    ensures t.Err? ==> r == Err(t.error)
    ensures t.Ok? && r.Err? ==> r.error == StreamErr(BadFormat)
  {
    match t
    case Err(e) => Err(e)
    case Ok(tok) =>
      if tok.Start? && tok.start.name == IQName then Ok(tok.start)
      else Err(StreamErr(BadFormat))
  }

  /** Reading one IQ: the first token is checked, then the element is decoded, `decode`
    * standing for `xml.Decoder.DecodeElement` on it. */
  function ReceiveIQ(t: Result<Token, Error>, decode: StartElement -> Result<BindIQ, Error>): (r: Result<(StartElement, BindIQ), Error>)
    ensures r.Ok? <==> ExpectIQ(t).Ok? && decode(ExpectIQ(t).value).Ok?
    ensures r.Ok? ==> r.value == (ExpectIQ(t).value, decode(ExpectIQ(t).value).value)
    ensures ExpectIQ(t).Err? ==> r == Err(ExpectIQ(t).error)
    ensures ExpectIQ(t).Ok? && r.Err? ==> decode(ExpectIQ(t).value) == Err(r.error)
  {
    match ExpectIQ(t)
    case Err(e) => Err(e)
    case Ok(start) =>
      match decode(start)
      case Err(e) => Err(e)
      case Ok(biq) => Ok((start, biq))
  }

  /** The server's choice of address: the hook when one is configured, otherwise
    * `random`, which stands for `RemoteAddr().WithResource(RandomID())`. */
  function Allocate(server: Option<Allocator>, remote: Jid, requested: string, random: AllocResult): (a: AllocResult)
    ensures server.Some? ==> a == server.value(remote, requested)
    ensures server.None? ==> a == random
  {
    match server
    case Some(hook) => hook(remote, requested)
    case None => random
  }

  /** The server's reply to request `req` whose `id` attribute was `iqid`, given the
    * allocation outcome: an allocation error other than a `stanza.Error` value aborts;
    * otherwise the reply echoes the id, swaps sender and recipient, has type result,
    * and embeds either the stanza error or the allocated JID. */
  function ServerResponse(iqid: string, req: BindIQ, alloc: AllocResult): (r: Result<BindIQ, Error>)
    ensures r.Err? <==> alloc.err.Some? && !alloc.err.value.StanzaErr?
    ensures r.Err? ==> r.error == alloc.err.value
    ensures r.Ok? ==> r.value.iq == IQ(iqid, req.iq.to, req.iq.from, ResultIQ)
    ensures r.Ok? ==> (r.value.err.Some? <==> alloc.err.Some?)
    ensures r.Ok? && alloc.err.Some? ==> r.value.err == Some(alloc.err.value.stanza) && r.value.bind.jid.None?
    ensures r.Ok? && alloc.err.None? ==> r.value.bind.jid == alloc.jid
    ensures r.Ok? ==> r.value.bind.resource == ""
  {
    var header := IQ(iqid, req.iq.to, req.iq.from, ResultIQ);
    match alloc.err
    case Some(StanzaErr(e)) => Ok(BindIQ(header, BindPayload("", None), Some(e)))
    case Some(other) => Err(other)
    case None => Ok(BindIQ(header, BindPayload("", alloc.jid), None))
  }

  /** The client's request: a set IQ with id `reqID`, no recipient, asking for
    * `resource` (the resourcepart of the session's current address). */
  function ClientRequest(reqID: string, resource: string): (r: BindIQ)
    ensures r.iq.id == reqID && r.iq.iqType == SetIQ && r.iq.to.None? && r.iq.from.None?
    ensures r.bind == BindPayload(resource, None) && r.err.None?
  {
    BindIQ(IQ(reqID, None, None, SetIQ), BindPayload(resource, None), None)
  }

  /** The client's judgement of the decoded reply `resp` to its request `reqID`. The
    * id is checked before anything else; a result binds the JID it carries, an error
    * returns the embedded error, any other type is a bad request. */
  function ClientVerdict(reqID: string, resp: BindIQ): (v: Result<Option<Jid>, Error>)
    ensures v.Ok? <==> resp.iq.id == reqID && resp.iq.iqType == ResultIQ
    ensures v.Ok? ==> v.value == resp.bind.jid
    ensures resp.iq.id != reqID ==> v == Err(StreamErr(UndefinedCondition))
    ensures resp.iq.id == reqID && resp.iq.iqType == ErrorIQ ==> v == Err(StanzaErrRef(resp.err))
    ensures resp.iq.id == reqID && !resp.iq.iqType.ResultIQ? && !resp.iq.iqType.ErrorIQ? ==>
      v == Err(StanzaErr(StanzaError(BadRequest, "")))
  {
    if resp.iq.id != reqID then Err(StreamErr(UndefinedCondition))
    else if resp.iq.iqType == ResultIQ then Ok(resp.bind.jid)
    else if resp.iq.iqType == ErrorIQ then Err(StanzaErrRef(resp.err))
    else Err(StanzaErr(StanzaError(BadRequest, "")))
  }

  /** A mismatched id decides the client's verdict whatever the reply's type, payload
    * or error. */
  lemma MismatchPrecedesType(reqID: string, a: BindIQ, b: BindIQ)
    requires a.iq.id != reqID && b.iq.id != reqID
    ensures ClientVerdict(reqID, a) == ClientVerdict(reqID, b)
    ensures ClientVerdict(reqID, a).Err?
  {
  }

  /** At the level of records: if the server reads the client's id and the client
    * decodes exactly the record the server built, then after a successful allocation
    * the client binds exactly the allocated JID. Whether the id and the JID survive the
    * serialisation in between is not part of this fact (see `PayloadLacksBindElement`). */
  lemma AllocatedAddressReachesClient(reqID: string, resource: string, from: Option<Jid>, alloc: AllocResult)
    requires alloc.err.None?
    ensures var req := ClientRequest(reqID, resource).(iq := ClientRequest(reqID, resource).iq.(from := from));
      var reply := ServerResponse(reqID, req, alloc);
      reply.Ok? && reply.value.iq.to == from && ClientVerdict(reqID, reply.value) == Ok(alloc.jid)
  {
  }

  /** As written, a reply that embeds an allocation's stanza error still has type
    * result, so the client accepts it and binds no address at all. */
  lemma EmbeddedErrorIsAccepted(reqID: string, req: BindIQ, e: StanzaError)
    ensures var reply := ServerResponse(reqID, req, AllocResult(None, Some(StanzaErr(e))));
      reply.Ok? && reply.value.err == Some(e) && ClientVerdict(reqID, reply.value) == Ok(None)
  {
  }

  /** The reply as RFC 6120 section 8.3 intends it: type error when an error is
    * embedded, type result otherwise. */
  function CorrectedServerResponse(iqid: string, req: BindIQ, alloc: AllocResult): (r: Result<BindIQ, Error>)
    ensures r.Err? <==> alloc.err.Some? && !alloc.err.value.StanzaErr?
    ensures r.Ok? ==> r.value.iq.id == iqid && r.value.iq.from == req.iq.to && r.value.iq.to == req.iq.from
    ensures r.Ok? ==> (r.value.iq.iqType == ErrorIQ <==> r.value.err.Some?)
  {
    match ServerResponse(iqid, req, alloc)
    case Err(e) => Err(e)
    case Ok(reply) =>
      if reply.err.Some? then Ok(reply.(iq := reply.iq.(iqType := ErrorIQ))) else Ok(reply)
  }

  /** With the corrected reply, the client fails with exactly the allocator's error,
    * and a successful allocation still binds the allocated JID. */
  lemma CorrectedReplyReachesClient(reqID: string, req: BindIQ, alloc: AllocResult)
    requires alloc.err.None? || alloc.err.value.StanzaErr?
    ensures var reply := CorrectedServerResponse(reqID, req, alloc);
      reply.Ok? &&
      (alloc.err.Some? ==> ClientVerdict(reqID, reply.value) == Err(StanzaErrRef(Some(alloc.err.value.stanza)))) &&
      (alloc.err.None? ==> ClientVerdict(reqID, reply.value) == Ok(alloc.jid))
  {
  }

  /** The element the `Bind` field of `bindIQ` is decoded from, by its field tag
    * `urn:ietf:params:xml:ns:xmpp-bind bind`. */
  const BindStart := StartElement(Name(NsBind, "bind"), [])

  /** What decoding fills the `Bind` field from, given an IQ's payload tokens: a
    * `{urn:ietf:params:xml:ns:xmpp-bind}bind` element holding one `jid` or `resource`
    * child with its text, read as the child's name and text. Any other payload leaves
    * the field at its zero value (`None`): no resource and no JID. Only this one shape
    * of the element is read. */
  function BindChild(toks: seq<Token>): (r: Option<(string, string)>)
    ensures r.Some? ==> |toks| == 5 && toks[0].Start? && toks[0].start.name == Name(NsBind, "bind")
    ensures r.Some? ==> r.value.0 in {"jid", "resource"} && toks[2] == CharData(r.value.1)
  {
    if |toks| == 5 && toks[0].Start? && toks[0].start.name == Name(NsBind, "bind")
       && toks[1].Start? && toks[1].start.name.local in {"jid", "resource"}
       && toks[2].CharData? && toks[3] == End(toks[1].start.End())
       && toks[4] == End(toks[0].start.End())
    then Some((toks[1].start.name.local, toks[2].data))
    else None
  }

  /** As written, the payload is a bare `jid` or `resource` element: no token opens a
    * `bind` element in any namespace, so the decoder leaves the receiver's `Bind`
    * field empty and the client of a reply binds no address. */
  lemma PayloadLacksBindElement(bp: BindPayload)
    ensures forall t :: t in PayloadTokens(bp) && t.Start? ==> t.start.name.local != "bind"
    ensures BindChild(PayloadTokens(bp)).None?
  {
    var toks := PayloadTokens(bp);
    assert toks == [toks[0], toks[1], toks[2]];
  }

  /** The payload as RFC 6120 section 7 puts it: the `jid` or `resource` element
    * inside a `{urn:ietf:params:xml:ns:xmpp-bind}bind` element. */
  function CorrectedPayloadTokens(bp: BindPayload): (toks: seq<Token>)
    ensures |toks| == 5 && toks[0] == Start(BindStart) && toks[4] == End(BindStart.End())
    ensures toks[1..4] == PayloadTokens(bp)
  {
    [Start(BindStart)] + PayloadTokens(bp) + [End(BindStart.End())]
  }

  /** With the corrected payload the decoder reads back what was written: the JID's
    * string form when a JID is set, otherwise the requested resource. */
  lemma CorrectedPayloadIsDecoded(bp: BindPayload)
    ensures BindChild(CorrectedPayloadTokens(bp)) ==
      Some(if bp.jid.Some? then ("jid", bp.jid.value.String()) else ("resource", bp.resource))
  {
    var toks := CorrectedPayloadTokens(bp);
    assert toks[1..4] == PayloadTokens(bp);
    assert toks[1] == PayloadTokens(bp)[0] && toks[2] == PayloadTokens(bp)[1];
    assert toks[3] == PayloadTokens(bp)[2];
  }

  /** The `Negotiate` closure. With the `Received` bit (server) it reads and decodes one
    * IQ, allocates an address and writes the reply; it never adds to the mask. Without
    * it (client) it writes its request, reads and decodes one IQ and judges it; only a
    * successful result changes the session's address and yields `Ready`. `decode`
    * stands for the decoder, `random` for the default allocation, `reqID` for the
    * generated request id and `resourcepart` for the resourcepart of `s.origin`. */
  method Negotiate(server: Option<Allocator>, s: Session, decode: StartElement -> Result<BindIQ, Error>,
                   random: AllocResult, reqID: string, resourcepart: string) returns (res: NegotiateResult)
    modifies s
    ensures res.rw.None?
    ensures Received in s.state ==>
      var got := ReceiveIQ(s.TokenAt(old(s.pos)), decode);
      && res.mask == {}
      && s.origin == old(s.origin)
      && s.pos == (if old(s.pos) < |s.input| then old(s.pos) + 1 else old(s.pos))
      && (got.Err? ==> res.err == Some(got.error) && s.sent == old(s.sent))
      && (got.Ok? ==>
            var reply := ServerResponse(GetAttr(got.value.0.attr, "id"), got.value.1,
                                        Allocate(server, s.remoteAddr, got.value.1.bind.resource, random));
            && (reply.Err? ==> res.err == Some(reply.error) && s.sent == old(s.sent))
            && (reply.Ok? ==>
                  && res.err == s.writeFault
                  && s.sent == old(s.sent) + (if s.writeFault.None? then [IQTokens(reply.value)] else [])))
    ensures Received !in s.state && s.writeFault.Some? ==>
      res == NegotiateResult({}, None, s.writeFault) &&
      s.pos == old(s.pos) && s.sent == old(s.sent) && s.origin == old(s.origin)
    ensures Received !in s.state && s.writeFault.None? ==>
      var got := ReceiveIQ(s.TokenAt(old(s.pos)), decode);
      && s.sent == old(s.sent) + [IQTokens(ClientRequest(reqID, resourcepart))]
      && s.pos == (if old(s.pos) < |s.input| then old(s.pos) + 1 else old(s.pos))
      && (got.Err? ==> res == NegotiateResult({}, None, Some(got.error)) && s.origin == old(s.origin))
      && (got.Ok? ==>
            var verdict := ClientVerdict(reqID, got.value.1);
            && (verdict.Err? ==> res == NegotiateResult({}, None, Some(verdict.error)) && s.origin == old(s.origin))
            && (verdict.Ok? ==> res == NegotiateResult({Ready}, None, None) && s.origin == verdict.value))
  {
    if Has(s.state, {Received}) {
      var tok := s.NextToken();
      var got := ReceiveIQ(tok, decode);
      if got.Err? {
        return NegotiateResult({}, None, Some(got.error));
      }
      var (start, resReq) := got.value;
      var iqid := GetAttr(start.attr, "id");
      var alloc := Allocate(server, s.remoteAddr, resReq.bind.resource, random);
      var reply := ServerResponse(iqid, resReq, alloc);
      if reply.Err? {
        return NegotiateResult({}, None, Some(reply.error));
      }
      var err := s.Send(IQTokens(reply.value));
      return NegotiateResult({}, None, err);
    }

    var err := s.Send(IQTokens(ClientRequest(reqID, resourcepart)));
    if err.Some? {
      return NegotiateResult({}, None, err);
    }
    var tok := s.NextToken();
    var got := ReceiveIQ(tok, decode);
    if got.Err? {
      return NegotiateResult({}, None, Some(got.error));
    }
    var verdict := ClientVerdict(reqID, got.value.1);
    if verdict.Err? {
      return NegotiateResult({}, None, Some(verdict.error));
    }
    s.origin := verdict.value;
    return NegotiateResult({Ready}, None, None);
  }
}
