/** The two SCRAM halves agree, for every name, password, verifier made from it, and comma-free nonces. */
module ScramAgreement {
  import opened Wrappers
  import opened Bytes
  import opened Names
  import opened ScramText
  import opened Scram

  // ------------------------------------------------------------------ parsing

  lemma ItemFacts(key: byte, value: bytes)
    requires key != EQUALS
    ensures HasKey(Item(key, value), key) && Item(key, value)[2..] == value && Keyed(Item(key, value))
    ensures forall k: byte :: HasKey(Item(key, value), k) <==> k == key
    ensures key != COMMA && COMMA !in value ==> COMMA !in Item(key, value)
  {
    CutAtFirst(Item(key, value));
    assert Item(key, value)[1] == EQUALS;
  }

  lemma TwoItems(a: bytes, b: bytes)
    requires COMMA !in a && COMMA !in b
    ensures Items(a + [COMMA] + b) == [a, b]
  {
    hide Split;
    SplitHead(a, COMMA, b);
    SplitWhole(b, COMMA);
  }

  lemma ThreeItems(a: bytes, b: bytes, d: bytes)
    requires COMMA !in a && COMMA !in b && COMMA !in d
    ensures Items(a + [COMMA] + (b + [COMMA] + d)) == [a, b, d]
  {
    hide Split;
    SplitHead(a, COMMA, b + [COMMA] + d);
    TwoItems(b, d);
  }

  /** The server reads back the name and nonce the client wrote. */
  lemma ClientFirstParses(username: bytes, nonce: bytes)
    requires COMMA !in nonce
    ensures ParseClientFirst(GS2 + Bare(username, nonce)) == Some(ClientFirst(Bare(username, nonce), username, nonce))
  {
    hide Split, Escape, Unescape, CutAt, Items, Keyed, HasKey, Item;
    var escaped, bare := Escape(username), Bare(username, nonce);
    UnescapeEscape(username);
    ItemFacts(N, escaped);
    ItemFacts(R, nonce);
    var a, b := Item(N, escaped), Item(R, nonce);
    TwoItems(a, b);
    var items := [a, b];
    assert Items(bare) == items;
    assert (GS2 + bare)[..3] == GS2 && (GS2 + bare)[3..] == bare;
    assert items[..1] == [a];
    assert LastValue(items, R) == Some(nonce) && LastValue([a], N) == Some(escaped) && LastValue(items, N) == LastValue([a], N);
  }

  /** The client reads back the nonce, salt and count the server wrote. */
  lemma ServerFirstParses(nonce: bytes, salt: bytes, count: bytes)
    requires COMMA !in nonce && COMMA !in salt && COMMA !in count
    ensures var m := Item(R, nonce) + [COMMA] + (Item(S, salt) + [COMMA] + Item(I, count));
            Attribute(m, R) == Some(nonce) && Attribute(m, S) == Some(salt) && Attribute(m, I) == Some(count)
  {
    hide Split, CutAt, Items, Keyed, Item;
    ItemFacts(R, nonce);
    ItemFacts(S, salt);
    ItemFacts(I, count);
    var a, b, d := Item(R, nonce), Item(S, salt), Item(I, count);
    ThreeItems(a, b, d);
    var items := [a, b, d];
    assert items[1..] == [b, d] && [b, d][1..] == [d];
    assert FirstValue([d], I) == Some(count) && FirstValue([b, d], S) == Some(salt);
    assert FirstValue([b, d], I) == FirstValue([d], I) && FirstValue(items, S) == FirstValue([b, d], S);
  }

  /** The server reads back the binding, nonce and proof the client wrote. */
  lemma ClientFinalParses(nonce: bytes, proof: bytes)
    requires COMMA !in nonce && COMMA !in proof
    ensures ParseClientFinal(WithoutProof(nonce) + [COMMA] + Item(P, proof)) == Some(ClientFinal(BIWS, nonce, proof))
  {
    hide Split, CutAt, Items, Keyed, Item, HasKey;
    ItemFacts(C, BIWS);
    ItemFacts(R, nonce);
    ItemFacts(P, proof);
    var a, b, d := Item(C, BIWS), Item(R, nonce), Item(P, proof);
    ThreeItems(a, b, d);
    assert a + [COMMA] + (b + [COMMA] + d) == WithoutProof(nonce) + [COMMA] + d;
    var items := [a, b, d];
    assert items[..2] == [a, b] && [a, b][..1] == [a];
    assert LastValue(items, P) == Some(proof);
    assert LastValue([a, b], R) == Some(nonce) && LastValue(items, R) == LastValue([a, b], R);
    assert LastValue([a], C) == Some(BIWS) && LastValue([a, b], C) == LastValue([a], C) && LastValue(items, C) == LastValue([a, b], C);
  }

  /** A payload is an initial response if and only if it starts with a mechanism, a NUL, a length and a message of that length. */
  lemma InitialIff(payload: bytes, m: Initial)
    ensures ParseInitialResponse(payload) == Some(m)
       <==> && NoNul(m.mechanism) && IsUtf8(m.mechanism) && IsUtf8(m.message) && |m.message| < 0x8000_0000
            && m.mechanism + [0] + PutI32(AsI32(|m.message|)) + m.message <= payload
  {
    hide IsUtf8, GetI32, PutI32, ReadCStr;
    var at, length := |m.mechanism| + 1, PutI32(AsI32(|m.message|));
    var written := CStr(m.mechanism) + length + m.message;
    if ParseInitialResponse(payload) == Some(m) {
      PutGetI32(payload, at);
      assert AsI32(|m.message|) == GetI32(payload, at);
      assert payload[0..at] == CStr(m.mechanism);
      assert payload[..|written|] == payload[0..at] + payload[at..at + 4] + payload[at + 4..at + 4 + |m.message|];
    }
    if NoNul(m.mechanism) && IsUtf8(m.mechanism) && IsUtf8(m.message) && |m.message| < 0x8000_0000 && written <= payload {
      assert payload[0..0 + |written|] == written;
      Cut(payload, 0, CStr(m.mechanism) + length, m.message);
      Cut(payload, 0, CStr(m.mechanism), length);
      Cut(payload, 0, m.mechanism, [0]);
      assert payload[|m.mechanism|] == payload[|m.mechanism|..at][0];
      ReadCStrAt(payload, 0, m.mechanism);
      I32RoundTrip(payload, at, AsI32(|m.message|));
      assert AsI32(|m.message|) == |m.message|;
    }
  }

  /** The server reads back the mechanism and message of the client's first payload. */
  lemma InitialParses(message: bytes)
    requires IsUtf8(message) && |message| < 0x8000_0000
    ensures ParseInitialResponse(InitialPayload(message)) == Some(Initial(MECHANISM, message))
  {
    hide IsUtf8, PutI32, ParseInitialResponse;
    AsciiIsUtf8(MECHANISM);
    InitialIff(InitialPayload(message), Initial(MECHANISM, message));
  }

  // -------------------------------------------------------------------- UTF-8

  lemma PlainUtf8(s: bytes)
    requires Plain(s)
    ensures IsUtf8(s) && COMMA !in s
  {
    AsciiIsUtf8(s);
  }

  lemma ItemUtf8(key: byte, value: bytes)
    requires key < 128 && IsUtf8(value)
    ensures IsUtf8(Item(key, value))
  {
    AsciiIsUtf8([key, EQUALS]);
    Utf8Concat([key, EQUALS], value);
  }

  lemma JoinUtf8(a: bytes, b: bytes)
    requires IsUtf8(a) && IsUtf8(b)
    ensures IsUtf8(a + [COMMA] + b)
  {
    AsciiIsUtf8([COMMA]);
    Utf8Concat(a, [COMMA]);
    Utf8Concat(a + [COMMA], b);
  }

  lemma DecimalPlain(n: nat)
    ensures Plain(Decimal(n))
  {
    var d := Decimal(n);
    assert Digits(d);
  }

  // ----------------------------------------------------------------- the steps

  lemma CodeOf(code: i32, rest: bytes)
    ensures var request := PutI32(code) + rest;
            |request| >= 4 && GetI32(request, 0) == code && request[4..] == rest
  {
    var request := PutI32(code) + rest;
    assert request[0..4] == PutI32(code);
    I32RoundTrip(request, 0, code);
  }

  /** The client's first answer, and what the server makes of it. */
  lemma FirstStep(c: Crypto, who: Client, st: Progress, tls: bool)
    requires COMMA !in who.nonce && IsUtf8(who.nonce) && IsUtf8(who.username)
    requires |Bare(who.username, who.nonce)| + 3 < 0x8000_0000
    ensures var bare := Bare(who.username, who.nonce);
            && Respond(c, who, st, SaslRequest(), tls) == Reply(st.(bare := Some(bare)), Send(InitialPayload(GS2 + bare)))
            && ParseInitialResponse(InitialPayload(GS2 + bare)) == Some(Initial(MECHANISM, GS2 + bare))
            && ParseClientFirst(GS2 + bare) == Some(ClientFirst(bare, who.username, who.nonce))
  {
    hide IsUtf8, GetI32, PutI32, Split, ParseInitialResponse, ParseClientFirst, Escape;
    var offer := MECHANISM + [0] + [0];
    CodeOf(10, offer);
    OfferHasMechanism();
    EscapeUtf8(who.username);
    ItemUtf8(N, Escape(who.username));
    ItemUtf8(R, who.nonce);
    JoinUtf8(Item(N, Escape(who.username)), Item(R, who.nonce));
    AsciiIsUtf8(GS2);
    Utf8Concat(GS2, Bare(who.username, who.nonce));
    InitialParses(GS2 + Bare(who.username, who.nonce));
    ClientFirstParses(who.username, who.nonce);
  }

  lemma OfferHasMechanism()
    ensures var offer := MECHANISM + [0] + [0];
            IsUtf8(offer) && MECHANISM in Split(offer, 0)
  {
    hide Split;
    var offer := MECHANISM + [0] + [0];
    AsciiIsUtf8(offer);
    SplitHead(MECHANISM, 0, [0]);
    assert ([MECHANISM] + Split([0], 0))[0] == MECHANISM;
  }

  lemma ServerFirstUtf8(c: Crypto, v: Verifier, nonce: bytes)
    requires Lawful(c) && IsUtf8(nonce)
    ensures IsUtf8(ServerFirst(c, v, nonce))
  {
    hide IsUtf8;
    PlainUtf8(c.encode(v.salt));
    DecimalPlain(v.iterations);
    PlainUtf8(Decimal(v.iterations));
    ItemUtf8(R, nonce);
    ItemUtf8(S, c.encode(v.salt));
    ItemUtf8(I, Decimal(v.iterations));
    JoinUtf8(Item(S, c.encode(v.salt)), Item(I, Decimal(v.iterations)));
    JoinUtf8(Item(R, nonce), Item(S, c.encode(v.salt)) + [COMMA] + Item(I, Decimal(v.iterations)));
  }

  function Salted(c: Crypto, who: Client, v: Verifier): bytes {
    c.pbkdf2(who.password, v.salt, v.iterations)
  }

  function FinalMessage(c: Crypto, who: Client, v: Verifier, bare: bytes, nonce: bytes): bytes {
    var auth := AuthMessage(bare, ServerFirst(c, v, nonce), nonce);
    WithoutProof(nonce) + [COMMA] + Item(P, c.encode(ClientProof(c, Salted(c, who, v), auth)))
  }

  /** The client's second answer: its proof over the auth message, and the signature it will expect. */
  lemma SecondStep(c: Crypto, who: Client, v: Verifier, bare: bytes, old_: Option<bytes>, serverNonce: bytes, tls: bool)
    requires Lawful(c) && 0 < v.iterations < 0x1_0000_0000
    requires COMMA !in who.nonce && COMMA !in serverNonce && IsUtf8(who.nonce + serverNonce)
    ensures var nonce := who.nonce + serverNonce;
            var auth := AuthMessage(bare, ServerFirst(c, v, nonce), nonce);
            var after := Progress(Some(bare), Some(c.hmac(c.hmac(Salted(c, who, v), SERVER_KEY), auth)));
            Respond(c, who, Progress(Some(bare), old_), ContinueRequest(ServerFirst(c, v, nonce)), tls)
            == Reply(after, Send(FinalMessage(c, who, v, bare, nonce)))
  {
    hide IsUtf8, GetI32, PutI32, Attribute, Item, ParseU32, ClientProof;
    var nonce := who.nonce + serverNonce;
    CodeOf(11, ServerFirst(c, v, nonce));
    ServerFirstUtf8(c, v, nonce);
    PlainUtf8(c.encode(v.salt));
    DecimalPlain(v.iterations);
    PlainUtf8(Decimal(v.iterations));
    ServerFirstParses(nonce, c.encode(v.salt), Decimal(v.iterations));
    ParsePrintedU32(v.iterations);
    assert who.nonce <= nonce;
  }

  lemma FinalUtf8(nonce: bytes, proof: bytes)
    requires IsUtf8(nonce) && IsUtf8(proof)
    ensures IsUtf8(WithoutProof(nonce) + [COMMA] + Item(P, proof))
  {
    hide IsUtf8;
    AsciiIsUtf8(BIWS);
    ItemUtf8(C, BIWS);
    ItemUtf8(R, nonce);
    ItemUtf8(P, proof);
    JoinUtf8(Item(C, BIWS), Item(R, nonce));
    JoinUtf8(WithoutProof(nonce), Item(P, proof));
  }

  /** The proof of the right password verifies. */
  lemma ProofVerifies(c: Crypto, who: Client, v: Verifier, auth: bytes)
    requires Lawful(c) && Matches(c, who.password, v)
    ensures VerifyProof(c, v, auth, c.encode(ClientProof(c, Salted(c, who, v), auth)))
  {
    var key := c.hmac(Salted(c, who, v), CLIENT_KEY);
    XorCancels(key, c.hmac(c.hash(key), auth));
  }

  /** And nothing else does: an accepted final message proves a key whose hash is stored, over this very auth message. */
  lemma AcceptedProofHasKey(c: Crypto, v: Verifier, bare: bytes, serverFirst: bytes, nonce: bytes, final: bytes) returns (key: bytes)
    requires Lawful(c) && ServerAccepts(c, v, bare, serverFirst, nonce, final).Some?
    ensures var m := ParseClientFinal(final);
            var signature := c.hmac(v.storedKey, AuthMessage(bare, serverFirst, nonce));
            && m.Some? && m.value.nonce == nonce && m.value.binding == BIWS
            && c.hash(key) == v.storedKey && |key| == |signature|
            && c.decode(m.value.proof) == Some(Xor(key, signature))
  {
    hide ParseClientFinal, Item, AuthMessage;
    var signature := c.hmac(v.storedKey, AuthMessage(bare, serverFirst, nonce));
    var decoded := c.decode(ParseClientFinal(final).value.proof).value;
    key := Xor(decoded, signature);
    XorCancels(decoded, signature);
  }

  /** The server accepts it, and answers with the signature the client expects. */
  lemma ThirdStep(c: Crypto, who: Client, v: Verifier, bare: bytes, nonce: bytes)
    requires Lawful(c) && Matches(c, who.password, v) && COMMA !in nonce && IsUtf8(nonce)
    ensures var serverFirst := ServerFirst(c, v, nonce);
            var signature := c.hmac(v.serverKey, AuthMessage(bare, serverFirst, nonce));
            ServerAccepts(c, v, bare, serverFirst, nonce, FinalMessage(c, who, v, bare, nonce)) == Some(Item(V, c.encode(signature)))
  {
    hide IsUtf8, Item, ParseClientFinal, ClientProof, VerifyProof, ServerFirst;
    var auth := AuthMessage(bare, ServerFirst(c, v, nonce), nonce);
    var proof := c.encode(ClientProof(c, Salted(c, who, v), auth));
    PlainUtf8(proof);
    ClientFinalParses(nonce, proof);
    FinalUtf8(nonce, proof);
    ProofVerifies(c, who, v, auth);
  }

  /** The client accepts the signature it expects. */
  lemma LastStep(c: Crypto, who: Client, bare: Option<bytes>, signature: bytes, tls: bool)
    requires Lawful(c)
    ensures Respond(c, who, Progress(bare, Some(signature)), FinalRequest(Item(V, c.encode(signature))), tls)
         == Reply(Progress(bare, None), Silent)
  {
    hide IsUtf8, GetI32, PutI32, Split;
    var text := c.encode(signature);
    PlainUtf8(text);
    CodeOf(12, Item(V, text));
    ItemUtf8(V, text);
    ItemFacts(V, text);
    SplitWhole(Item(V, text), COMMA);
    assert Item(V, text)[0] == V;
  }

  /**
   Agreement: run against each other, the client half ends satisfied and the server half accepts, both over the
   same auth message, whatever the name (commas and equals signs included), password, salt and comma-free nonces.
   */
  lemma Agreement(c: Crypto, who: Client, v: Verifier, serverNonce: bytes, tls: bool)
    requires Lawful(c) && Matches(c, who.password, v) && 0 < v.iterations < 0x1_0000_0000
    requires COMMA !in who.nonce && COMMA !in serverNonce
    requires IsUtf8(who.username) && IsUtf8(who.nonce) && IsUtf8(serverNonce)
    requires |Bare(who.username, who.nonce)| + 3 < 0x8000_0000
    ensures var first := Respond(c, who, START, SaslRequest(), tls);
            && first.outcome.Send?
            && var initial := ParseInitialResponse(first.outcome.payload);
            && initial.Some? && initial.value.mechanism == MECHANISM
            && var hello := ParseClientFirst(initial.value.message);
            && hello.Some? && hello.value.username == who.username && hello.value.nonce == who.nonce
            && var nonce := hello.value.nonce + serverNonce;
            && var serverFirst := ServerFirst(c, v, nonce);
            && var second := Respond(c, who, first.state, ContinueRequest(serverFirst), tls);
            && second.outcome.Send?
            && var accepted := ServerAccepts(c, v, hello.value.bare, serverFirst, nonce, second.outcome.payload);
            && accepted.Some?
            && Respond(c, who, second.state, FinalRequest(accepted.value), tls).outcome == Silent
  {
    hide IsUtf8, Respond, ParseInitialResponse, ParseClientFirst, ServerAccepts, ServerFirst, FinalMessage, Escape;
    var bare, nonce := Bare(who.username, who.nonce), who.nonce + serverNonce;
    FirstStep(c, who, START, tls);
    Utf8Concat(who.nonce, serverNonce);
    SecondStep(c, who, v, bare, None, serverNonce, tls);
    ThirdStep(c, who, v, bare, nonce);
    LastStep(c, who, Some(bare), c.hmac(v.serverKey, AuthMessage(bare, ServerFirst(c, v, nonce), nonce)), tls);
  }
}
