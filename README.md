# XMPP stream features: resource binding, in-band registration, random identifiers

This project models three parts of the mellium XMPP library, a Go implementation of
XMPP stream negotiation:

- the resource-binding stream feature (`bind.go`);
- the Extensible In-Band Registration features `Register` and `Recovery` (`ibr2/ibr2.go`);
- the random identifier generator `RandomID(n)` (`internal/idgen.go`).

It then proves properties of that model in Dafny.

A stream feature is a descriptor. It holds:

- an element name;
- the session-state bits it needs and the bits it must not see;
- three closures: `List` advertises the feature, `Parse` reads the peer's advertisement,
  and `Negotiate` runs the exchange.

The model keeps the descriptor as a datatype, `Xmpp.StreamFeature<B>`. The type
parameter `B` is what the closures capture: the optional allocator hook for binding, or
the challenge list for registration. Each feature's module implements the three
operations over that captured value.

Modules:

- `Wrappers`: `Option` and `Result`.
- `Errors`: the errors the core produces or inspects. Go's `error` values are split by
  dynamic type. `StanzaErr` is a `stanza.Error` value. `StanzaErrRef` is a possibly nil
  `*stanza.Error`. `StreamErr` covers the stream conditions, and `Fault` every other error.
- `Xml`: tokens, plus an `Encoder` class. The encoder accepts tokens until it holds
  `capacity` of them, then rejects every further token with `fault`; `Flush` fails with
  `flushFault`. `Emitted` is the part of a planned token sequence that such an encoder
  ends up holding when the caller stops at the first rejection.
- `Stanza`: JIDs with their string form, IQ headers and types, and the three-argument
  `stanza.WrapIQ` envelope.
- `Xmpp`: session-state bits, the feature descriptor, and a `Session` class. The class
  holds the state, the remote and origin addresses, an incoming token stream with a
  cursor, the stanzas written, and read and write failure oracles.
- `Bind`, `Ibr2`, `IdGen`: the three core files.

Imperative code is modelled with methods and loops:

- The token-writing `List` closures are module methods that take the `Encoder` as an
  argument and change only it.
- The bind `Negotiate` closure is a module method that takes the `Session` as an
  argument. Its `ensures` give the whole new state in terms of the specification functions `ReceiveIQ`, `ServerResponse`,
  `ClientRequest` and `ClientVerdict`.
- The `listFunc` loop keeps a `seen` set as the Go code does. It is proved to emit
  exactly `ListTokens`, or the part of it that `Emitted` allows.
- `parseFunc` fills its map in two loops and is proved to compute `Gate`.
- `RandomID` allocates its buffer as an array and fills it in place.

The pure parts are functions with lemmas:

- the payload and IQ serialisations;
- `GetAttr`;
- the server's reply and the client's verdict;
- `Distinct`, the first-seen de-duplication of challenge types;
- the compatibility gate;
- the hex encoding.

In two places the model follows the code where a reader might expect otherwise:

- The server's bind reply is addressed from the request's recipient to its sender
  (bind.go:150-151), not from the session's own address.
- The registration gate counts duplicated local challenges (ibr2/ibr2.go:84).

## Model

| member | source | states |
|---|---|---|
| Bind.Feature | bind.go:88-92 | the bind feature is named `{urn:ietf:params:xml:ns:xmpp-bind}bind`, needs Authn, is prohibited by Ready, and captures the hook |
| Bind.BindResource | bind.go:29-31 | BindResource is the bind feature with no allocator hook |
| Bind.BindCustom | bind.go:42-44 | BindCustom is the bind feature capturing the given hook |
| Bind.BindCustomNilIsBindResource | bind.go:33-44 | with a nil hook BindCustom is the same feature as BindResource |
| Bind.TextElement | bind.go:72-85 | `xmlstream.Wrap` of one text token: an unqualified element without attributes, the text, and the matching end |
| Bind.PayloadTokens | bind.go:70-86 | a `jid` element holding the JID's string when a JID is set, otherwise a `resource` element holding the resource, each opened and closed |
| Bind.IQTokens | bind.go:53-59 | the IQ is wrapped with its recipient and type only; the payload is the embedded error exactly when there is one, otherwise the bind payload's tokens |
| Bind.IQTokensIgnoresIdAndFrom | bind.go:53-59 | two bind IQs that differ only in id and sender serialise identically |
| Bind.ListTokens | bind.go:93-103 | the bind advertisement is the start element followed directly by its end |
| Bind.List | bind.go:93-103 | List always reports the feature as required; it encodes start and end, returns the first encoder failure at once, otherwise returns the flush result |
| Bind.Parse | bind.go:104-109 | Parse always reports the feature required, with no data, passing on the decoder's error |
| Bind.GetAttr | bind.go:134 | the value of the first attribute with the given local name, "" when none has it |
| Bind.ExpectIQ | bind.go:116-132 | the first token must be a start element named `{jabber:client}iq`; a read error is passed on; anything else is a bad-format stream error |
| Bind.ReceiveIQ | bind.go:116-132 | reading one IQ succeeds exactly when the token check and the decode both succeed, and otherwise yields the first error |
| Bind.Allocate | bind.go:136-141 | the configured hook is asked with the remote address and the requested resource; without a hook the default allocation is used |
| Bind.ServerResponse | bind.go:142-162 | an allocation error that is not a `stanza.Error` value aborts with it; otherwise the reply echoes the id, swaps sender and recipient, has type result, and embeds the stanza error or the allocated JID |
| Bind.ClientRequest | bind.go:169-178 | the client's request is a set IQ with the generated id, no recipient, and the session's resourcepart as the requested resource |
| Bind.ClientVerdict | bind.go:209-219 | a mismatched id is undefined-condition; a result yields its JID; an error IQ returns its possibly nil `*stanza.Error`; any other type is bad-request |
| Bind.MismatchPrecedesType | bind.go:209-211 | an id mismatch fails the client whatever else the reply holds |
| Bind.AllocatedAddressReachesClient | bind.go:147-219 | at record level: if the server reads the client's id and the client decodes exactly the record the server built, a successful allocation makes the client bind exactly the allocated JID |
| Bind.BindChild | bind.go:46-68 | the `Bind` field is filled only from a `{urn:ietf:params:xml:ns:xmpp-bind}bind` element holding a `jid` or `resource` child, whose name and text are read |
| Bind.PayloadLacksBindElement | bind.go:70-86 | as written, the payload opens no `bind` element, so the decoder leaves the receiver's `Bind` field empty |
| Bind.CorrectedPayloadTokens | bind.go:70-86 | the corrected payload is the `jid` or `resource` element inside the `bind` element |
| Bind.CorrectedPayloadIsDecoded | bind.go:46-86 | with the corrected payload the decoder reads back the JID's string form, or the requested resource |
| Bind.EmbeddedErrorIsAccepted | bind.go:147-162 | as written, a reply embedding a stanza error has type result and the client accepts it, binding no address |
| Bind.CorrectedServerResponse | bind.go:147-162 | the corrected reply has type error exactly when it embeds an error |
| Bind.CorrectedReplyReachesClient | bind.go:209-218 | with the corrected reply the client fails with exactly the allocator's stanza error, and a success still binds the allocated JID |
| Bind.Negotiate | bind.go:110-220 | server side: one IQ read, decoded, answered by the reply written to the session, mask always empty, address unchanged, first error returned; client side: request written, one IQ read and judged, the address set and Ready returned only on a verdict of success |
| Xmpp.Session.NextToken | bind.go:116-119 | a read yields the next incoming token and advances the cursor, or fails with the read error at the end |
| Xmpp.Session.Send | bind.go:164 | writing a stanza appends it to what was sent unless the write fails |
| Ibr2.Distinct | ibr2/ibr2.go:33-51 | the types `listFunc` lists, in first-seen order, each once; its properties are the next lemmas |
| Ibr2.DistinctElems | ibr2/ibr2.go:33-51 | the listed challenge types are exactly the types of the challenge list |
| Ibr2.DistinctNoDup | ibr2/ibr2.go:33-51 | no challenge type is listed twice |
| Ibr2.DistinctFirstSeen | ibr2/ibr2.go:34-37 | listed types appear in the order of their first occurrence |
| Ibr2.DistinctOfNoDup | ibr2/ibr2.go:33-37 | a list without duplicates is listed unchanged |
| Ibr2.DistinctIdempotent | ibr2/ibr2.go:33-37 | de-duplicating twice is de-duplicating once |
| Ibr2.DistinctAbsorbs | ibr2/ibr2.go:33-37 | types already seen add nothing to the listing |
| Ibr2.DistinctPrefix | ibr2/ibr2.go:33-51 | the types listed after part of the loop are a prefix of the full listing |
| Ibr2.ChallengeElement | ibr2/ibr2.go:38-49 | each challenge element is three tokens: start, the type as text, end |
| Ibr2.ChallengeTokens | ibr2/ibr2.go:34-51 | three tokens per listed type |
| Ibr2.ChallengeTokensAt | ibr2/ibr2.go:38-49 | the k-th challenge element sits at tokens 3k to 3k+2 and carries the k-th type |
| Ibr2.ListTokens | ibr2/ibr2.go:26-58 | the listing is the feature's start element, three tokens per distinct type, and the matching end element |
| Ibr2.ListTokensAt | ibr2/ibr2.go:34-51 | the k-th challenge element of the listing carries the k-th distinct type |
| Ibr2.ListIgnoresDuplicates | ibr2/ibr2.go:33-37 | a list with duplicates, and a list given twice over, are advertised exactly like its distinct version |
| Ibr2.ListedSoFar | ibr2/ibr2.go:28-51 | what the loop has written at any point is a prefix of the whole listing |
| Ibr2.ListSkip | ibr2/ibr2.go:35-37 | a type already seen changes neither the seen set nor the listing |
| Ibr2.ListAdd | ibr2/ibr2.go:38-50 | a new type joins the seen set and extends the listing by its challenge element |
| Ibr2.EncodeChallenge | ibr2/ibr2.go:38-49 | the three tokens of one challenge element are encoded, stopping at the first failure |
| Ibr2.ListNew | ibr2/ibr2.go:38-50 | encoding a new type's element extends the output, or stops the listing in the state `Emitted` gives |
| Ibr2.EncodeChallenges | ibr2/ibr2.go:33-51 | the loop emits one challenge element per distinct type in first-seen order, or the prefix of that the encoder accepted, with the first failure |
| Ibr2.EncodeList | ibr2/ibr2.go:28-55 | start, challenge elements and end are emitted in full, or cut at the first failure, which is returned |
| Ibr2.List | ibr2/ibr2.go:26-58 | listing never marks the feature required, emits the listing up to the first failure, and flushes only when everything was encoded |
| Ibr2.Gate | ibr2/ibr2.go:84 | the gate: the distinct types of both lists together number no more than the local challenges, duplicates counted |
| Ibr2.Parse | ibr2/ibr2.go:60-86 | a decode error is returned with "unsupported"; otherwise no error and "supported" exactly when the gate holds; never required |
| Ibr2.ElemsCard | ibr2/ibr2.go:73-84 | the map built from a list has at most as many keys as the list has entries, and exactly as many without duplicates |
| Ibr2.UnionNoLarger | ibr2/ibr2.go:81-84 | adding the peer's keys leaves the map no larger exactly when it adds no new key |
| Ibr2.GateAcceptsSubset | ibr2/ibr2.go:81-84 | a peer requiring only locally supported types always passes |
| Ibr2.GateIffSubset | ibr2/ibr2.go:81-84 | for a local list without duplicates the gate holds exactly when every peer type is supported locally |
| Ibr2.GateAdmitsUnsupportedPeer | ibr2/ibr2.go:73-84 | as written, local ["a","a"] passes a peer that requires "b" |
| Ibr2.CompatibleIffSubset | ibr2/ibr2.go:81-84 | the corrected gate holds exactly when every peer type is supported locally, duplicates or not |
| Ibr2.Negotiate | ibr2/ibr2.go:88-102 | a client whose check found the peer unsupported returns the zero result; every other case panics with "not yet supported" |
| Ibr2.Register | ibr2/ibr2.go:104-115 | Register is `{urn:xmpp:register:0}register`, needs Secure, is prohibited by Authn, and captures the challenges |
| Ibr2.Recovery | ibr2/ibr2.go:117-128 | Recovery is `{urn:xmpp:register:0}recovery` with the same masks and challenges |
| Ibr2.RegisterRecoveryDifferInNameOnly | ibr2/ibr2.go:106-128 | the two features differ only in their element's local name |
| IdGen.HexDigit | internal/idgen.go:21 | each nibble becomes a lowercase hex digit |
| IdGen.DigitValue | internal/idgen.go:21 | a lowercase hex digit has a nibble value that maps back to it |
| IdGen.Hex | internal/idgen.go:21 | `%x` writes two characters per byte |
| IdGen.HexAt | internal/idgen.go:21 | byte i becomes characters 2i (high nibble) and 2i+1 (low nibble) |
| IdGen.HexAlphabet | internal/idgen.go:21 | every character of the encoding is a lowercase hex digit |
| IdGen.ByteOf | internal/idgen.go:21 | a byte built from two nibbles has them as its high and low nibble |
| IdGen.UnhexCons | internal/idgen.go:21 | decoding a hex string reads its first two digits as one byte and then the rest |
| IdGen.UnhexHex | internal/idgen.go:21 | reading the encoding back yields the bytes: `%x` loses nothing |
| IdGen.BufferLen | internal/idgen.go:16 | for n ≥ 0 the buffer holds ⌈n/2⌉ bytes, so 2·len ≥ n; for negative n only -1 and -3 give an allocatable length |
| IdGen.FormatID | internal/idgen.go:21 | the identifier has exactly n characters and is a prefix of the hex encoding |
| IdGen.FormatIDAt | internal/idgen.go:21 | characters 2j and 2j+1 of the identifier are the high and low nibble of byte j |
| IdGen.ReadFull | internal/idgen.go:17-19 | the read fills the whole buffer from the entropy source, or fails when the source has too few bytes; an empty buffer always succeeds |
| IdGen.RandomID | internal/idgen.go:15-22 | a negative buffer length, a failed read and a negative slice bound each panic; an identifier is returned exactly when n ≥ 0 and the read succeeds, and it is the first n hex digits of the bytes read |
| IdGen.RandomIDShape | internal/idgen.go:15-22 | a returned identifier has exactly n characters, all lowercase hex digits, and is a prefix of the encoding of the bytes read |

## Left out

- XML tokenizing and `xml.Decoder.DecodeElement`: decoding is a function parameter from
  the start element to the decoded value. The model advances the session's cursor by one
  token and does not model the decoder consuming the element's body.
- The tokens of `stanza.WrapIQ` and `stanza.Error.TokenReader`: an IQ written to the
  session is recorded by the three arguments of `WrapIQ`. The `stanza` package is not
  part of this model.
- JID operations (`WithResource`, `Resourcepart`, `String`): the default allocation
  `RemoteAddr().WithResource(RandomID())` and the client's resourcepart are inputs. A JID
  is opaque apart from its string form.
- The bind feature's request id and default resource: bind.go:140 and 169 call
  `internal.RandomID()` with no argument, which does not match `RandomID(n int)` at
  internal/idgen.go:15. The generated values are therefore arbitrary string inputs with
  no assumed length, and no statistical distinctness is claimed.
- `context.Context` and cancellation, the `io.ReadWriter` transport that a `Negotiate`
  may return (always nil here), and partial writes. A write to the session succeeds or
  fails as a whole.
- The negotiation engine that orders features and applies the returned masks is not
  part of this model. The numeric values of the session-state bits are absent too,
  because the files that define them are not part of this model.
- Ibr2.Negotiate: the panic is modelled as an `Outcome` value; no unwinding is modelled.
  The type assertion `supported.(bool)` always succeeds, because `Parse` always returns
  a bool.
- `Challenge` has further fields (its send and receive functions) that listing, parsing
  and negotiating never read. Only its type is modelled.
- The sources of `internal/ns` and `internal.GetAttr` are not part of this model. The
  namespace constants follow RFC 6120, and `Bind.GetAttr` infers the helper's behaviour
  (the first attribute with a matching local name) from its call site at bind.go:134.
- Encoder failures are modelled by a capacity: the encoder rejects every token from some
  point on. The callers stop at the first rejection, so any failure pattern gives the same
  output and error as a capacity placed at that first rejection. The reasons an encoder
  fails (I/O, invalid tokens) are not modelled.
- Bind.AllocatedAddressReachesClient: the round trip over the wire is not established.
  The lemma passes the server's record to the client unchanged, skipping the write at
  bind.go:164 and the decode at bind.go:202. `IQTokens` hands `WrapIQ` only the
  recipient and the type, and whether `WrapIQ` writes an id is not part of this model;
  the payload lacks the `bind` element the decoder needs (the `bindPayload` finding below).
- `crypto/rand`: the entropy source is the finite sequence of bytes it can supply before
  failing. Its randomness is not modelled.
- IdGen.RandomID: Go's 64-bit `int` is modelled as an unbounded integer. For every n a
  buffer can be allocated for, `n/2 + (n&1)` cannot overflow. Memory exhaustion by
  `make` is not modelled.

## Findings

| source | as written | input that shows it | evidently intended | confidence | as-written member | corrected member |
|---|---|---|---|---|---|---|
| ibr2/ibr2.go:84 | the gate compares the number of distinct types of both lists with `len(challenges)`, which counts duplicated local challenges | local challenges of types ["a", "a"], peer list ["b"]: the map holds {a, b}, 2 ≤ 2, so the peer is reported supported although it requires "b" | compare with the number of distinct local types, so the gate holds exactly when every peer type is supported locally (the comment at ibr2/ibr2.go:81-83) | not executed | Ibr2.GateAdmitsUnsupportedPeer | Ibr2.CompatibleIffSubset |
| bind.go:70-86 | `bindPayload.TokenReader` writes a bare `jid` or `resource` element directly in the IQ, while the field tag at bind.go:49 decodes the `Bind` field only from a `{urn:ietf:params:xml:ns:xmpp-bind}bind` element | a server reply carrying JID `a@b/c` is `<jid>a@b/c</jid>` in the IQ; a decoder reading it into `bindIQ` leaves `Bind.JID` nil, so the client at bind.go:212-213 binds no address; likewise the server reads a requested resource as "" | the payload wrapped in the `bind` element in the binding namespace (RFC 6120 section 7), so the decoder reads back what was written | not executed | Bind.PayloadLacksBindElement | Bind.CorrectedPayloadIsDecoded |
| bind.go:147-162 | the server reply always has type result, also when it embeds the allocator's stanza error | an allocator returning a `stanza.Error`: the reply is a result IQ with an error child and no JID, and the client at bind.go:212-213 accepts it, sets its address to nil and returns Ready | a reply that carries an error has type error (RFC 6120 section 8.3.1), so the client returns the error | not executed | Bind.EmbeddedErrorIsAccepted | Bind.CorrectedReplyReachesClient |
