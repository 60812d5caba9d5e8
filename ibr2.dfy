/** Extensible In-Band Registration (ibr2/ibr2.go, the ProtoXEP of namespace
  * `urn:xmpp:register:0`): two features that advertise the challenge types they
  * support and check the peer's list against their own. */
module Ibr2 {
  import opened Wrappers
  import opened Xml
  import opened Errors
  import opened Xmpp

  const NS := "urn:xmpp:register:0"

  /** A `Challenge`; only its type takes part in listing and parsing. */
  datatype Challenge = Challenge(kind: string)

  /** The challenge types of a challenge list, in order, duplicates kept. */
  function Kinds(cs: seq<Challenge>): (ks: seq<string>)
  {
    seq(|cs|, i requires 0 <= i < |cs| => cs[i].kind)
  }

  /** The elements of a sequence, as the keys of a Go map filled from it. */
  function Elems(s: seq<string>): (r: set<string>)
  {
    set x | x in s
  }

  lemma ElemsSnoc(s: seq<string>, x: string)
    ensures Elems(s + [x]) == Elems(s) + {x}
  {
  }

  predicate NoDup(s: seq<string>)
  {
    forall i, j :: 0 <= i < j < |s| ==> s[i] != s[j]
  }

  /** The position of the first occurrence of `x` in `s`. */
  function IndexOf(s: seq<string>, x: string): (i: nat)
    requires x in s
    ensures i < |s| && s[i] == x && x !in s[..i]
  {
    if s[0] == x then 0
    else
      assert x in s[1..];
      var k := IndexOf(s[1..], x);
      assert s[..k + 1] == [s[0]] + s[1..][..k];
      k + 1
  }

  /** `xs` without repetitions, each element kept where it is first seen. */
  function Distinct(xs: seq<string>): (d: seq<string>)
    decreases |xs|
  {
    if xs == [] then []
    else
      var init, last := xs[..|xs| - 1], xs[|xs| - 1];
      if last in init then Distinct(init) else Distinct(init) + [last]
  }

  /** Distinct loses no element and adds none. */
  lemma {:induction false} DistinctElems(xs: seq<string>)
    ensures forall x :: x in Distinct(xs) <==> x in xs
  {
    if xs != [] {
      var init, last := xs[..|xs| - 1], xs[|xs| - 1];
      assert xs == init + [last];
      DistinctElems(init);
    }
  }

  /** Distinct leaves no repetition. */
  lemma {:induction false} DistinctNoDup(xs: seq<string>)
    ensures NoDup(Distinct(xs))
  {
    if xs != [] {
      var init, last := xs[..|xs| - 1], xs[|xs| - 1];
      DistinctNoDup(init);
      DistinctElems(init);
    }
  }

  lemma DistinctSnoc(xs: seq<string>, x: string)
    ensures Distinct(xs + [x]) == if x in xs then Distinct(xs) else Distinct(xs) + [x]
  {
    assert (xs + [x])[..|xs|] == xs;
  }

  lemma {:induction false} IndexOfSnoc(s: seq<string>, y: string, z: string)
    requires y in s
    ensures IndexOf(s + [z], y) == IndexOf(s, y)
  {
    if s[0] != y {
      assert (s + [z])[1..] == s[1..] + [z];
      IndexOfSnoc(s[1..], y, z);
    }
  }

  /** The elements of `d`, all of which occur in `xs`, occur there for the first time
    * in the order in which they appear in `d`. */
  predicate FirstSeenOrder(xs: seq<string>, d: seq<string>)
    requires forall x :: x in d ==> x in xs
  {
    forall i, j :: 0 <= i < j < |d| ==> IndexOf(xs, d[i]) < IndexOf(xs, d[j])
  }

  lemma FirstSeenSnoc(init: seq<string>, last: string, d: seq<string>)
    requires forall x :: x in d ==> x in init
    requires FirstSeenOrder(init, d)
    ensures FirstSeenOrder(init + [last], d)
    ensures last !in init ==> FirstSeenOrder(init + [last], d + [last])
  {
    var xs := init + [last];
    forall y | y in init
      ensures IndexOf(xs, y) == IndexOf(init, y)
    {
      IndexOfSnoc(init, y, last);
    }
    if last !in init {
      assert IndexOf(xs, last) == |init|;
      var d' := d + [last];
      forall i, j | 0 <= i < j < |d'|
        ensures IndexOf(xs, d'[i]) < IndexOf(xs, d'[j])
      {
        assert d'[i] == d[i] && d[i] in init;
        if j < |d| {
          assert d'[j] == d[j];
        }
      }
    }
  }

  /** Distinct keeps first-seen order. */
  lemma {:induction false} DistinctFirstSeen(xs: seq<string>)
    ensures forall x :: x in Distinct(xs) ==> x in xs
    ensures FirstSeenOrder(xs, Distinct(xs))
  {
    DistinctElems(xs);
    if xs != [] {
      var init, last := xs[..|xs| - 1], xs[|xs| - 1];
      assert xs == init + [last];
      DistinctFirstSeen(init);
      DistinctSnoc(init, last);
      FirstSeenSnoc(init, last, Distinct(init));
    }
  }

  /** A sequence without repetitions is its own Distinct. */
  lemma {:induction false} DistinctOfNoDup(xs: seq<string>)
    requires NoDup(xs)
    ensures Distinct(xs) == xs
  {
    if xs != [] {
      var init, last := xs[..|xs| - 1], xs[|xs| - 1];
      assert xs == init + [last];
      assert NoDup(init);
      DistinctOfNoDup(init);
      DistinctSnoc(init, last);
    }
  }

  lemma DistinctIdempotent(xs: seq<string>)
    ensures Distinct(Distinct(xs)) == Distinct(xs)
  {
    DistinctNoDup(xs);
    DistinctOfNoDup(Distinct(xs));
  }

  /** Appending elements already seen changes nothing. */
  lemma {:induction false} DistinctAbsorbs(xs: seq<string>, ys: seq<string>)
    requires forall y :: y in ys ==> y in xs
    ensures Distinct(xs + ys) == Distinct(xs)
  {
    if ys == [] {
      assert xs + ys == xs;
    } else {
      var init, last := ys[..|ys| - 1], ys[|ys| - 1];
      assert ys == init + [last];
      assert xs + ys == (xs + init) + [last];
      DistinctAbsorbs(xs, init);
      DistinctSnoc(xs + init, last);
    }
  }

  lemma {:induction false} DistinctPrefix(xs: seq<string>, i: nat)
    requires i <= |xs|
    ensures Distinct(xs[..i]) <= Distinct(xs)
    decreases |xs|
  {
    if i < |xs| {
      var init, last := xs[..|xs| - 1], xs[|xs| - 1];
      assert xs == init + [last];
      assert xs[..i] == init[..i];
      DistinctPrefix(init, i);
      DistinctSnoc(init, last);
    } else {
      assert xs[..i] == xs;
    }
  }

  /** The element each listed challenge type becomes. */
  const ChallengeStart := StartElement(Name("", "challenge"), [])

  function ChallengeElement(kind: string): (toks: seq<Token>)
    ensures |toks| == 3
  {
    [Start(ChallengeStart), CharData(kind), End(ChallengeStart.End())]
  }

  /** One challenge element per type, in order. */
  function ChallengeTokens(kinds: seq<string>): (toks: seq<Token>)
    ensures |toks| == 3 * |kinds|
  {
    if kinds == [] then []
    else ChallengeTokens(kinds[..|kinds| - 1]) + ChallengeElement(kinds[|kinds| - 1])
  }

  lemma ChallengeTokensSnoc(kinds: seq<string>, k: string)
    ensures ChallengeTokens(kinds + [k]) == ChallengeTokens(kinds) + ChallengeElement(k)
  {
    assert (kinds + [k])[..|kinds|] == kinds;
  }

  /** The challenge element of the `k`-th type sits at tokens `3k` to `3k + 2`. */
  lemma {:induction false} ChallengeTokensAt(kinds: seq<string>, k: nat)
    requires k < |kinds|
    ensures ChallengeTokens(kinds)[3 * k..3 * k + 3] == ChallengeElement(kinds[k])
  {
    var init := kinds[..|kinds| - 1];
    if k < |init| {
      ChallengeTokensAt(init, k);
      assert init[k] == kinds[k];
    }
  }

  lemma {:induction false} ChallengeTokensPrefix(a: seq<string>, b: seq<string>)
    requires a <= b
    ensures ChallengeTokens(a) <= ChallengeTokens(b)
    decreases |b|
  {
    if |a| < |b| {
      var init := b[..|b| - 1];
      assert a <= init;
      ChallengeTokensPrefix(a, init);
    } else {
      assert a == b;
    }
  }

  /** What `listFunc` emits for challenge types `kinds`: the feature's start element,
    * one challenge element per distinct type in first-seen order, and the end. */
  function ListTokens(start: StartElement, kinds: seq<string>): (toks: seq<Token>)
    ensures |toks| == 3 * |Distinct(kinds)| + 2
    ensures toks[0] == Start(start) && toks[|toks| - 1] == End(start.End())
  {
    [Start(start)] + ChallengeTokens(Distinct(kinds)) + [End(start.End())]
  }

  /** The `k`-th challenge element carries the `k`-th distinct type. */
  lemma ListTokensAt(start: StartElement, kinds: seq<string>, k: nat)
    requires k < |Distinct(kinds)|
    ensures ListTokens(start, kinds)[3 * k + 1..3 * k + 4] == ChallengeElement(Distinct(kinds)[k])
  {
    ChallengeTokensAt(Distinct(kinds), k);
    var toks := ListTokens(start, kinds);
    var ct := ChallengeTokens(Distinct(kinds));
    assert toks[1..|ct| + 1] == ct;
    assert toks[3 * k + 1..3 * k + 4] == ct[3 * k..3 * k + 3];
  }

  /** Listing a list with duplicates emits exactly what listing its distinct version
    * emits, and listing a list twice over emits what listing it once does. */
  lemma ListIgnoresDuplicates(start: StartElement, kinds: seq<string>)
    ensures ListTokens(start, kinds) == ListTokens(start, Distinct(kinds))
    ensures ListTokens(start, kinds + kinds) == ListTokens(start, kinds)
  {
    DistinctIdempotent(kinds);
    DistinctAbsorbs(kinds, kinds);
  }

  /** What the loop has emitted after `i` challenges is a prefix of the whole listing. */
  lemma ListedSoFar(start: StartElement, kinds: seq<string>, i: nat)
    requires i <= |kinds|
    ensures [Start(start)] + ChallengeTokens(Distinct(kinds[..i])) <= ListTokens(start, kinds)
  {
    DistinctPrefix(kinds, i);
    ChallengeTokensPrefix(Distinct(kinds[..i]), Distinct(kinds));
  }

  /** Encodes one challenge element, stopping at the first failure. */
  method EncodeChallenge(e: Encoder, kind: string) returns (err: Option<Error>)
    requires e.Valid()
    modifies e`out
    ensures e.Valid()
    ensures e.out == old(e.out) + Emitted(e.capacity, old(|e.out|), ChallengeElement(kind))
    ensures err == if Fits(e.capacity, old(|e.out|), 3) then None else Some(e.fault)
  {
    ghost var out0 := e.out;
    var open, text, close := Start(ChallengeStart), CharData(kind), End(ChallengeStart.End());
    assert ChallengeElement(kind) == [open] + [text] + [close];
    err := e.EncodeToken(open);
    if err.Some? {
      EmittedNothing(e.capacity, out0, ChallengeElement(kind));
      return;
    }
    err := e.EncodeToken(text);
    if err.Some? {
      EmittedStopped(e.capacity, out0, [open], [text], ChallengeElement(kind), e.out);
      return;
    }
    EmittedGoesOn(e.capacity, out0, [open], [text], e.out);
    err := e.EncodeToken(close);
    if err.Some? {
      EmittedStopped(e.capacity, out0, [open] + [text], [close], ChallengeElement(kind), e.out);
      return;
    }
    EmittedGoesOn(e.capacity, out0, [open] + [text], [close], e.out);
  }

  /** One iteration of the `listFunc` loop, on the abstract state: the set of types
    * seen so far and the distinct types listed so far. A type seen before changes
    * neither. */
  lemma ListSkip(kinds: seq<string>, i: nat, seen: set<string>, listed: seq<string>)
    requires i < |kinds| && kinds[i] in seen
    requires seen == Elems(kinds[..i]) && listed == Distinct(kinds[..i])
    ensures Elems(kinds[..i + 1]) == seen && Distinct(kinds[..i + 1]) == listed
  {
    assert kinds[..i + 1] == kinds[..i] + [kinds[i]];
    assert kinds[..i + 1][..i] == kinds[..i];
    ElemsSnoc(kinds[..i], kinds[i]);
  }

  /** A type not seen before joins both, and its challenge element extends what has
    * been encoded towards the whole listing. */
  lemma ListAdd(kinds: seq<string>, i: nat, seen: set<string>, listed: seq<string>)
    requires i < |kinds| && kinds[i] !in seen
    requires seen == Elems(kinds[..i]) && listed == Distinct(kinds[..i])
    ensures Elems(kinds[..i + 1]) == seen + {kinds[i]}
    ensures Distinct(kinds[..i + 1]) == listed + [kinds[i]]
    ensures ChallengeTokens(listed + [kinds[i]]) == ChallengeTokens(listed) + ChallengeElement(kinds[i])
    ensures ChallengeTokens(listed) + ChallengeElement(kinds[i]) <= ChallengeTokens(Distinct(kinds))
  {
    assert kinds[..i + 1] == kinds[..i] + [kinds[i]];
    assert kinds[..i + 1][..i] == kinds[..i];
    ElemsSnoc(kinds[..i], kinds[i]);
    DistinctSnoc(kinds[..i], kinds[i]);
    ChallengeTokensSnoc(listed, kinds[i]);
    DistinctPrefix(kinds, i + 1);
    ChallengeTokensPrefix(listed + [kinds[i]], Distinct(kinds));
  }

  /** Encodes the challenge element of a type not seen before, as the step from
    * `done` towards `full`. */
  method ListNew(kind: string, e: Encoder, ghost out0: seq<Token>, ghost done: seq<Token>, ghost full: seq<Token>)
    returns (err: Option<Error>)
    requires e.Valid() && e.out == out0 + done
    requires done + ChallengeElement(kind) <= full
    modifies e`out
    ensures e.Valid()
    ensures err.None? ==> e.out == out0 + (done + ChallengeElement(kind))
    ensures err.Some? ==>
      && err.value == e.fault
      && !Fits(e.capacity, |out0|, |full|)
      && e.out == out0 + Emitted(e.capacity, |out0|, full)
  {
    err := EncodeChallenge(e, kind);
    if err.Some? {
      EmittedStopped(e.capacity, out0, done, ChallengeElement(kind), full, e.out);
    } else {
      EmittedGoesOn(e.capacity, out0, done, ChallengeElement(kind), e.out);
    }
  }

  /** The loop of `listFunc`: each challenge type not in `seen` yet is encoded as a
    * challenge element and then added to `seen`; the first failure is returned. */
  method EncodeChallenges(kinds: seq<string>, e: Encoder) returns (err: Option<Error>)
    requires e.Valid()
    modifies e`out
    ensures e.Valid()
    ensures e.out == old(e.out) + Emitted(e.capacity, old(|e.out|), ChallengeTokens(Distinct(kinds)))
    ensures err == if Fits(e.capacity, old(|e.out|), |ChallengeTokens(Distinct(kinds))|) then None else Some(e.fault)
  {
    ghost var out0 := e.out;
    var seen: set<string> := {};
    var i := 0;
    ghost var listed: seq<string> := [];
    while i < |kinds|
      invariant 0 <= i <= |kinds|
      invariant e.Valid()
      invariant seen == Elems(kinds[..i])
      invariant listed == Distinct(kinds[..i])
      invariant e.out == out0 + ChallengeTokens(listed)
    {
      if kinds[i] in seen {
        ListSkip(kinds, i, seen, listed);
      } else {
        ListAdd(kinds, i, seen, listed);
        err := ListNew(kinds[i], e, out0, ChallengeTokens(listed), ChallengeTokens(Distinct(kinds)));
        if err.Some? {
          return;
        }
        seen, listed := seen + {kinds[i]}, listed + [kinds[i]];
      }
      i := i + 1;
    }
    assert kinds[..i] == kinds;
    EmittedPrefix(e.capacity, |out0|, ChallengeTokens(listed));
    err := None;
  }

  /** The encoding part of `listFunc`: the start element, the challenge elements and
    * the end element, stopping at the first failure. */
  method EncodeList(kinds: seq<string>, e: Encoder, start: StartElement) returns (err: Option<Error>)
    requires e.Valid()
    modifies e`out
    ensures e.Valid()
    ensures e.out == old(e.out) + Emitted(e.capacity, old(|e.out|), ListTokens(start, kinds))
    ensures err == if Fits(e.capacity, old(|e.out|), |ListTokens(start, kinds)|) then None else Some(e.fault)
  {
    ghost var out0 := e.out;
    ghost var open, close := [Start(start)], [End(start.End())];
    ghost var body := ChallengeTokens(Distinct(kinds));
    ghost var full := ListTokens(start, kinds);
    assert full == open + body + close;
    err := e.EncodeToken(Start(start));
    if err.Some? {
      EmittedNothing(e.capacity, out0, full);
      return;
    }
    err := EncodeChallenges(kinds, e);
    if err.Some? {
      EmittedStopped(e.capacity, out0, open, body, full, e.out);
      return;
    }
    EmittedGoesOn(e.capacity, out0, open, body, e.out);
    err := e.EncodeToken(End(start.End()));
    if err.Some? {
      EmittedStopped(e.capacity, out0, open + body, close, full, e.out);
      return;
    }
    EmittedGoesOn(e.capacity, out0, open + body, close, e.out);
  }

  /** `listFunc`: encodes the listing and flushes. Its `req` result is never set;
    * the first failure is returned at once. */
  method List(challenges: seq<Challenge>, e: Encoder, start: StartElement) returns (req: bool, err: Option<Error>)
    requires e.Valid()
    modifies e
    ensures e.Valid()
    ensures !req
    ensures e.out == old(e.out) + Emitted(e.capacity, old(|e.out|), ListTokens(start, Kinds(challenges)))
    ensures err == if Fits(e.capacity, old(|e.out|), |ListTokens(start, Kinds(challenges))|) then e.flushFault else Some(e.fault)
    ensures e.flushed == if err.None? then |e.out| else old(e.flushed)
  {
    req := false;
    err := EncodeList(Kinds(challenges), e, start);
    if err.Some? {
      return;
    }
    err := e.Flush();
  }

  /** The compatibility gate as `parseFunc` computes it: the distinct types of both
    * lists together are no more than the number of local challenges, duplicates
    * counted. */
  predicate Gate(local: seq<string>, peer: seq<string>)
  {
    |Elems(local) + Elems(peer)| <= |local|
  }

  /** `parseFunc`: `decoded` is what decoding the peer's challenge list yielded. On a
    * decode error it reports unsupported with the error; otherwise it fills a map with
    * both lists' types and reports the gate. It never marks the feature mandatory. */
  method Parse(challenges: seq<Challenge>, decoded: Result<seq<string>, Error>) returns (r: ParseResult<bool>)
    ensures !r.req
    ensures decoded.Err? ==> r == ParseResult(false, false, Some(decoded.error))
    ensures decoded.Ok? ==> r.err.None? && (r.data <==> Gate(Kinds(challenges), decoded.value))
  {
    if decoded.Err? {
      return ParseResult(false, false, Some(decoded.error));
    }
    var peer := decoded.value;
    var m: set<string> := {};
    var i := 0;
    while i < |challenges|
      invariant 0 <= i <= |challenges|
      invariant m == Elems(Kinds(challenges)[..i])
    {
      assert Kinds(challenges)[..i + 1] == Kinds(challenges)[..i] + [challenges[i].kind];
      m := m + {challenges[i].kind};
      i := i + 1;
    }
    assert Kinds(challenges)[..i] == Kinds(challenges);
    var j := 0;
    while j < |peer|
      invariant 0 <= j <= |peer|
      invariant m == Elems(Kinds(challenges)) + Elems(peer[..j])
    {
      assert peer[..j + 1] == peer[..j] + [peer[j]];
      m := m + {peer[j]};
      j := j + 1;
    }
    assert peer[..j] == peer;
    return ParseResult(false, |m| <= |challenges|, None);
  }

  /** A sequence has at most as many distinct elements as entries, and exactly as many
    * when it has no repetitions. */
  lemma {:induction false} ElemsCard(s: seq<string>)
    ensures |Elems(s)| <= |s|
    ensures NoDup(s) ==> |Elems(s)| == |s|
  {
    if s != [] {
      var init, last := s[..|s| - 1], s[|s| - 1];
      assert s == init + [last];
      assert Elems(s) == Elems(init) + {last};
      ElemsCard(init);
      if NoDup(s) {
        assert NoDup(init);
        assert last !in Elems(init);
      }
    }
  }

  /** One sequence's elements are among another's exactly when its element set is
    * a subset of the other's. */
  lemma ElemsSubset(a: seq<string>, b: seq<string>)
    ensures Elems(a) <= Elems(b) <==> forall p :: p in a ==> p in b
  {
    forall p | p in a
      ensures p in Elems(a)
    {
    }
    forall p | p in Elems(b)
      ensures p in b
    {
    }
    if forall p :: p in a ==> p in b {
      forall x | x in Elems(a)
        ensures x in Elems(b)
      {
      }
    }
  }

  /** Adding a set to `a` keeps it no larger than `a` exactly when it adds nothing. */
  lemma UnionNoLarger(a: set<string>, b: set<string>)
    ensures |a + b| <= |a| <==> b <= a
  {
    if !(b <= a) {
      var x :| x in b && x !in a;
      assert a + {x} <= a + b;
      assert |a + {x}| == |a| + 1;
      SubsetCard(a + {x}, a + b);
    } else {
      assert a + b == a;
    }
  }

  lemma SubsetCard(a: set<string>, b: set<string>)
    requires a <= b
    ensures |a| <= |b|
  {
    assert b == a + (b - a);
  }

  /** Every peer type the local side supports passes the gate, duplicates or not. */
  lemma GateAcceptsSubset(local: seq<string>, peer: seq<string>)
    requires forall p :: p in peer ==> p in local
    ensures Gate(local, peer)
  {
    assert Elems(peer) <= Elems(local);
    assert Elems(local) + Elems(peer) == Elems(local);
    ElemsCard(local);
  }

  /** For a local list without duplicates the gate is exactly "the peer requires no
    * type the local side lacks". */
  lemma GateIffSubset(local: seq<string>, peer: seq<string>)
    requires NoDup(local)
    ensures Gate(local, peer) <==> forall p :: p in peer ==> p in local
  {
    ElemsCard(local);
    UnionNoLarger(Elems(local), Elems(peer));
    ElemsSubset(peer, local);
  }

  /** As written the gate counts duplicated local challenges: a local list naming one
    * type twice accepts a peer that requires a type the local side lacks. */
  lemma GateAdmitsUnsupportedPeer()
    ensures Gate(["a", "a"], ["b"]) && "b" !in ["a", "a"]
  {
    var both := Elems(["a", "a"]) + Elems(["b"]);
    forall x | x in both
      ensures x in {"a", "b"}
    {
    }
    SubsetCard(both, {"a", "b"});
  }

  /** The gate as its comment intends it: the union is no larger than the set of
    * local types. */
  predicate Compatible(local: seq<string>, peer: seq<string>)
  {
    |Elems(local) + Elems(peer)| <= |Elems(local)|
  }

  /** The intended gate holds exactly when every peer type is supported locally,
    * whatever duplicates either list holds. */
  lemma CompatibleIffSubset(local: seq<string>, peer: seq<string>)
    ensures Compatible(local, peer) <==> forall p :: p in peer ==> p in local
  {
    UnionNoLarger(Elems(local), Elems(peer));
    ElemsSubset(peer, local);
  }

  /** How a call ends: it returns a result, or it panics with a message. */
  datatype Outcome = Returned(result: NegotiateResult) | Panicked(message: string)

  /** `negotiateFunc`: a client whose parse found the peer's challenges unsupported
    * skips the feature without error; everything else reaches the unfinished
    * challenge exchange, which panics. */
  function Negotiate(state: SessionState, supported: bool): (o: Outcome)
    ensures o.Returned? <==> !Has(state, {Received}) && !supported
    ensures o.Returned? ==> o.result == NegotiateResult({}, None, None)
    ensures o.Panicked? ==> o.message == "not yet supported"
  {
    var server := Has(state, {Received});
    if !server && !supported then Returned(NegotiateResult({}, None, None))
    else Panicked("not yet supported")
  }

  /** The registration features' closures capture only the challenge list. */
  type RegistrationFeature = StreamFeature<seq<Challenge>>

  /** `Register`: the feature for registering a new account. */
  function Register(challenges: seq<Challenge>): (f: RegistrationFeature)
    ensures f.name == Name(NS, "register")
    ensures f.necessary == {Secure} && f.prohibited == {Authn}
    ensures f.behaviour == challenges
  {
    StreamFeature(Name(NS, "register"), {Secure}, {Authn}, challenges)
  }

  /** `Recovery`: the feature for recovering an account whose credentials are lost. */
  function Recovery(challenges: seq<Challenge>): (f: RegistrationFeature)
    ensures f.name == Name(NS, "recovery")
    ensures f.necessary == {Secure} && f.prohibited == {Authn}
    ensures f.behaviour == challenges
  {
    StreamFeature(Name(NS, "recovery"), {Secure}, {Authn}, challenges)
  }

  /** Register and Recovery differ in their element's local name and nothing else. */
  lemma RegisterRecoveryDifferInNameOnly(challenges: seq<Challenge>)
    ensures Register(challenges).(name := Recovery(challenges).name) == Recovery(challenges)
    ensures Register(challenges).name.space == Recovery(challenges).name.space
    ensures Register(challenges).name.local != Recovery(challenges).name.local
  {
  }
}
