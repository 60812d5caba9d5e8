/** The part of `encoding/xml` the core touches: names, tokens, and a token encoder.
  * Tokenizing and serialising bytes are not part of this model; the encoder only
  * records the tokens it accepted. */
module Xml {
  import opened Wrappers
  import opened Errors

  /** An expanded XML name: namespace and local part. */
  datatype Name = Name(space: string, local: string)

  datatype Attr = Attr(name: Name, value: string)

  datatype EndElement = EndElement(name: Name)

  datatype StartElement = StartElement(name: Name, attr: seq<Attr>)
  {
    /** The matching end element, as `xml.StartElement.End`. */
    function End(): (e: EndElement)
      ensures e.name == name
    {
      EndElement(name)
    }
  }

  datatype Token =
    | Start(start: StartElement)
    | End(end: EndElement)
    | CharData(data: string)
    | Comment(text: string)
    | ProcInst(target: string, inst: string)
    | Directive(text: string)

  /** Whether an encoder that has already accepted `before` tokens and holds at most
    * `capacity` of them (no bound when `None`) accepts `count` more. */
  predicate Fits(capacity: Option<nat>, before: nat, count: nat)
  {
    capacity.None? || before + count <= capacity.value
  }

  /** The part of `toks` an encoder keeps when it is asked to encode `toks` one by one
    * and the caller stops at the first rejected token. */
  function Emitted(capacity: Option<nat>, before: nat, toks: seq<Token>): seq<Token>
    requires Fits(capacity, before, 0)
  {
    if Fits(capacity, before, |toks|) then toks else toks[..capacity.value - before]
  }

  /** What is emitted is a prefix of what was meant: all of it when it fits, and
    * otherwise as much as fills the encoder. */
  lemma EmittedPrefix(capacity: Option<nat>, before: nat, toks: seq<Token>)
    requires Fits(capacity, before, 0)
    ensures Emitted(capacity, before, toks) <= toks
    ensures Fits(capacity, before, |toks|) <==> Emitted(capacity, before, toks) == toks
    ensures !Fits(capacity, before, |toks|) ==> before + |Emitted(capacity, before, toks)| == capacity.value
  {
  }

  /** A caller that wrote `done` in full and then had the chunk after it cut short
    * has emitted, of everything it meant to write, what `Emitted` says. */
  lemma EmittedStep(capacity: Option<nat>, before: nat, done: seq<Token>, chunk: seq<Token>, full: seq<Token>)
    requires done + chunk <= full
    requires Fits(capacity, before, |done|)
    requires !Fits(capacity, before + |done|, |chunk|)
    ensures !Fits(capacity, before, |full|)
    ensures Emitted(capacity, before, full) == done + Emitted(capacity, before + |done|, chunk)
  {
    var k := capacity.value - before - |done|;
    assert full[..|done| + k] == (done + chunk)[..|done| + k] == done + chunk[..k];
  }

  /** An encoder that rejects the first token has emitted nothing of `toks`. */
  lemma EmittedNothing(capacity: Option<nat>, out0: seq<Token>, toks: seq<Token>)
    requires Fits(capacity, |out0|, 0) && !Fits(capacity, |out0|, 1) && toks != []
    ensures !Fits(capacity, |out0|, |toks|)
    ensures out0 == out0 + Emitted(capacity, |out0|, toks)
  {
    assert Emitted(capacity, |out0|, toks) == [];
  }

  /** Output `out` that holds `done` in full and then `chunk` cut short is what
    * `Emitted` says of everything meant. */
  lemma EmittedStopped(capacity: Option<nat>, out0: seq<Token>, done: seq<Token>, chunk: seq<Token>,
                       full: seq<Token>, out: seq<Token>)
    requires done + chunk <= full
    requires Fits(capacity, |out0|, |done|) && !Fits(capacity, |out0| + |done|, |chunk|)
    requires out == out0 + done + Emitted(capacity, |out0| + |done|, chunk)
    ensures !Fits(capacity, |out0|, |full|)
    ensures out == out0 + Emitted(capacity, |out0|, full)
  {
    EmittedStep(capacity, |out0|, done, chunk, full);
    assert out0 + done + Emitted(capacity, |out0| + |done|, chunk)
        == out0 + (done + Emitted(capacity, |out0| + |done|, chunk));
  }

  /** Output `out` that holds `done` and then `chunk` in full holds their
    * concatenation, which fitted. */
  lemma EmittedGoesOn(capacity: Option<nat>, out0: seq<Token>, done: seq<Token>, chunk: seq<Token>,
                      out: seq<Token>)
    requires Fits(capacity, |out0|, |done|) && Fits(capacity, |out0| + |done|, |chunk|)
    requires out == out0 + done + Emitted(capacity, |out0| + |done|, chunk)
    ensures Fits(capacity, |out0|, |done + chunk|)
    ensures out == out0 + (done + chunk) == out0 + Emitted(capacity, |out0|, done + chunk)
  {
    assert out0 + done + chunk == out0 + (done + chunk);
  }

  /** A token writer (`xml.Encoder` or an `xmlstream.TokenWriter`). The underlying
    * writer is an oracle: it accepts tokens until `capacity` of them are held, and
    * every later `EncodeToken` fails with `fault`; `Flush` fails with `flushFault`. */
  class Encoder {
    var out: seq<Token>
    var flushed: nat
    const capacity: Option<nat>
    const fault: Error
    const flushFault: Option<Error>

    ghost predicate Valid()
      reads this
    {
      flushed <= |out| && Fits(capacity, |out|, 0)
    }

    constructor (capacity: Option<nat>, fault: Error, flushFault: Option<Error>)
      ensures Valid() && out == [] && flushed == 0
      ensures this.capacity == capacity && this.fault == fault && this.flushFault == flushFault
    {
      out := [];
      flushed := 0;
      this.capacity := capacity;
      this.fault := fault;
      this.flushFault := flushFault;
    }

    method EncodeToken(t: Token) returns (err: Option<Error>)
      requires Valid()
      modifies this`out
      ensures Valid()
      ensures err.None? <==> Fits(capacity, old(|out|), 1)
      ensures err.Some? ==> err.value == fault
      ensures out == if err.None? then old(out) + [t] else old(out)
      ensures out == old(out) + Emitted(capacity, old(|out|), [t])
    {
      if Fits(capacity, |out|, 1) {
        out := out + [t];
        err := None;
      } else {
        assert out + Emitted(capacity, |out|, [t]) == out + [];
        err := Some(fault);
      }
    }

    method Flush() returns (err: Option<Error>)
      requires Valid()
      modifies this`flushed
      ensures Valid()
      ensures err == flushFault
      ensures flushed == if err.None? then |out| else old(flushed)
    {
      err := flushFault;
      if err.None? {
        flushed := |out|;
      }
    }
  }
}
