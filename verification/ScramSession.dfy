/** The client half as the session object it is (`BackendAuthSession`, auth.rs), and the order its answers keep. */
module ScramSessions {
  import opened Wrappers
  import opened Bytes
  import opened ScramText
  import opened Scram

  class BackendAuthSession {
    const crypto: Crypto
    const who: Client
    var bare: Option<bytes>
    var expected: Option<bytes>

    ghost function View(): Progress
      reads this
    {
      Progress(bare, expected)
    }

    constructor (crypto: Crypto, who: Client)
      ensures View() == START
    {
      this.crypto, this.who := crypto, who;
      bare, expected := None, None;
    }

    method ScramInitialResponse(request: bytes) returns (o: Outcome)
      requires |request| >= 4
      modifies this
      ensures Reply(View(), o) == InitialResponse(who, old(View()), request)
    {
      var mechanisms := request[4..];
      if !IsUtf8(mechanisms) || MECHANISM !in Split(mechanisms, 0) {
        return Failed;
      }
      var clientFirstBare := Bare(who.username, who.nonce);
      bare := Some(clientFirstBare);
      o := Send(InitialPayload(GS2 + clientFirstBare));
    }

    method ScramFinalResponse(request: bytes) returns (o: Outcome)
      requires |request| >= 4
      modifies this
      ensures Reply(View(), o) == FinalResponse(crypto, who, old(View()), request)
    {
      hide IsUtf8, Attribute, ParseU32, Item;
      var serverFirst := request[4..];
      if !IsUtf8(serverFirst) {
        return Failed;
      }
      var nonce := Attribute(serverFirst, R);
      if nonce.None? || !(who.nonce <= nonce.value) {
        return Failed;
      }
      var salt := Attribute(serverFirst, S);
      if salt.None? {
        return Failed;
      }
      var decoded := crypto.decode(salt.value);
      var count := Attribute(serverFirst, I);
      if decoded.None? || count.None? {
        return Failed;
      }
      var iterations := ParseU32(count.value);
      if iterations.None? || iterations.value == 0 || bare.None? {
        return Failed;
      }
      var auth := AuthMessage(bare.value, serverFirst, nonce.value);
      var salted := crypto.pbkdf2(who.password, decoded.value, iterations.value);
      var proof := ClientProof(crypto, salted, auth);
      expected := Some(crypto.hmac(crypto.hmac(salted, SERVER_KEY), auth));
      o := Send(WithoutProof(nonce.value) + [COMMA] + Item(P, crypto.encode(proof)));
    }

    method VerifyScramServerFinal(request: bytes) returns (o: Outcome)
      requires |request| >= 4
      modifies this
      ensures Reply(View(), o) == VerifyServerFinal(crypto, old(View()), request)
    {
      var serverFinal := request[4..];
      if !IsUtf8(serverFinal) || [101, EQUALS] <= serverFinal {
        return Failed;
      }
      var taken := expected;
      expected := None;
      if taken.None? {
        return Failed;
      }
      var signature := Attribute(serverFinal, V);
      if signature.None? {
        return Failed;
      }
      o := if crypto.decode(signature.value) == taken then Silent else Failed;
    }

    method Respond(request: bytes, tls: bool) returns (o: Outcome)
      modifies this
      ensures Reply(View(), o) == Scram.Respond(crypto, who, old(View()), request, tls)
    {
      hide InitialResponse, FinalResponse, VerifyServerFinal, GetI32;
      if |request| < 4 {
        return Failed;
      }
      var code: int := GetI32(request, 0);
      if code == 0 {
        o := Silent;
      } else if code == 3 {
        o := if tls then Send(who.password + [0]) else Failed;
      } else if code == 5 {
        o := Md5Response(crypto, who, request);
      } else if code == 10 {
        o := ScramInitialResponse(request);
      } else if code == 11 {
        o := ScramFinalResponse(request);
      } else if code == 12 {
        o := VerifyScramServerFinal(request);
      } else {
        o := Failed;
      }
    }
  }

  // --------------------------------------------------------------- every session

  datatype Request = Request(bytes: bytes, tls: bool)

  function Run(c: Crypto, who: Client, requests: seq<Request>): Progress {
    if requests == [] then START
    else
      var n := |requests| - 1;
      Scram.Respond(c, who, Run(c, who, requests[..n]), requests[n].bytes, requests[n].tls).state
  }

  /** Request `i` has this code and is answered without error. */
  predicate Succeeds(c: Crypto, who: Client, requests: seq<Request>, i: nat, code: int) {
    && i < |requests| && |requests[i].bytes| >= 4 && GetI32(requests[i].bytes, 0) == code
    && Scram.Respond(c, who, Run(c, who, requests[..i]), requests[i].bytes, requests[i].tls).outcome != Failed
  }

  lemma SucceedsPrefix(c: Crypto, who: Client, requests: seq<Request>, n: nat, i: nat, code: int)
    requires i < n <= |requests|
    ensures Succeeds(c, who, requests[..n], i, code) == Succeeds(c, who, requests, i, code)
  {
    hide Scram.Respond, GetI32;
    assert requests[..n][..i] == requests[..i];
  }

  /** What one request can do to the two fields. */
  lemma StepEffects(c: Crypto, who: Client, st: Progress, request: bytes, tls: bool)
    ensures var r := Scram.Respond(c, who, st, request, tls);
            && (r.state.bare != st.bare ==> |request| >= 4 && GetI32(request, 0) == 10 && r.outcome != Failed)
            && (r.state.expected.Some? && r.state.expected != st.expected ==>
                  |request| >= 4 && GetI32(request, 0) == 11 && r.outcome != Failed)
            && (|request| >= 4 && GetI32(request, 0) == 12 && r.outcome != Failed ==> st.expected.Some? && r.state.expected.None?)
            && (|request| >= 4 && GetI32(request, 0) == 11 && r.outcome != Failed ==> st.bare.Some?)
  {
    hide IsUtf8, Attribute, ParseU32, Item, GetI32;
  }

  /** A stored first message comes from an answered code 10. */
  lemma {:induction false} BareOrigin(c: Crypto, who: Client, requests: seq<Request>) returns (k: nat)
    requires Run(c, who, requests).bare.Some?
    ensures Succeeds(c, who, requests, k, 10)
  {
    hide Scram.Respond, GetI32;
    var n := |requests| - 1;
    StepEffects(c, who, Run(c, who, requests[..n]), requests[n].bytes, requests[n].tls);
    if Run(c, who, requests[..n]).bare == Run(c, who, requests).bare {
      k := BareOrigin(c, who, requests[..n]);
      SucceedsPrefix(c, who, requests, n, k, 10);
    } else {
      k := n;
    }
  }

  /** A stored signature comes from an answered code 11, with no code 12 answered since. */
  lemma {:induction false} ExpectedOrigin(c: Crypto, who: Client, requests: seq<Request>) returns (j: nat)
    requires Run(c, who, requests).expected.Some?
    ensures Succeeds(c, who, requests, j, 11) && Run(c, who, requests[..j + 1]).expected == Run(c, who, requests).expected
    ensures forall m :: j < m < |requests| ==> !Succeeds(c, who, requests, m, 12)
  {
    hide Scram.Respond, GetI32;
    var n := |requests| - 1;
    var before := Run(c, who, requests[..n]);
    StepEffects(c, who, before, requests[n].bytes, requests[n].tls);
    if before.expected == Run(c, who, requests).expected {
      j := ExpectedOrigin(c, who, requests[..n]);
      SucceedsPrefix(c, who, requests, n, j, 11);
      assert requests[..n][..j + 1] == requests[..j + 1];
      forall m | j < m < |requests|
        ensures !Succeeds(c, who, requests, m, 12)
      {
        if m < n {
          SucceedsPrefix(c, who, requests, n, m, 12);
        }
      }
    } else {
      j := n;
      assert requests[..j + 1] == requests;
    }
  }

  /**
   In every sequence of requests, a code 12 answered without error follows an answered code 11 of its own, with
   no other code 12 answered in between, which follows an answered code 10.
   */
  lemma ServerFinalNeedsExchange(c: Crypto, who: Client, requests: seq<Request>, i: nat) returns (k: nat, j: nat)
    requires Succeeds(c, who, requests, i, 12)
    ensures k < j < i && Succeeds(c, who, requests, k, 10) && Succeeds(c, who, requests, j, 11)
    ensures forall m :: j < m < i ==> !Succeeds(c, who, requests, m, 12)
  {
    hide Scram.Respond, GetI32, Run;
    StepEffects(c, who, Run(c, who, requests[..i]), requests[i].bytes, requests[i].tls);
    j := ExpectedOrigin(c, who, requests[..i]);
    SucceedsPrefix(c, who, requests, i, j, 11);
    forall m | j < m < i
      ensures !Succeeds(c, who, requests, m, 12)
    {
      SucceedsPrefix(c, who, requests, i, m, 12);
    }
    StepEffects(c, who, Run(c, who, requests[..j]), requests[j].bytes, requests[j].tls);
    k := BareOrigin(c, who, requests[..j]);
    SucceedsPrefix(c, who, requests, j, k, 10);
  }

  // ------------------------------------------------------------ by the code alone

  /** How request `i` of a sequence is answered. */
  function Answer(c: Crypto, who: Client, requests: seq<Request>, i: nat): Outcome
    requires i < |requests|
  {
    Scram.Respond(c, who, Run(c, who, requests[..i]), requests[i].bytes, requests[i].tls).outcome
  }

  predicate HasCode(r: Request, code: int) {
    |r.bytes| >= 4 && GetI32(r.bytes, 0) == code
  }

  lemma RunTo(c: Crypto, who: Client, requests: seq<Request>, i: nat)
    requires i < |requests|
    ensures Run(c, who, requests[..i + 1])
         == Scram.Respond(c, who, Run(c, who, requests[..i]), requests[i].bytes, requests[i].tls).state
  {
    hide Scram.Respond;
    assert requests[..i + 1][..i] == requests[..i];
  }

  /**
   In every sequence of requests: the cleartext password is sent if and only if it is asked for over TLS, and asking
   changes nothing. So a request without TLS gets it only where a hashed answer happens to be the same bytes.
   */
  lemma CleartextNeedsTls(c: Crypto, who: Client, requests: seq<Request>, i: nat)
    requires i < |requests|
    ensures HasCode(requests[i], 3) ==>
              && Answer(c, who, requests, i) == (if requests[i].tls then Send(who.password + [0]) else Failed)
              && Run(c, who, requests[..i + 1]) == Run(c, who, requests[..i])
    ensures Answer(c, who, requests, i) == Send(who.password + [0]) && !requests[i].tls ==>
              HasCode(requests[i], 5) || HasCode(requests[i], 10) || HasCode(requests[i], 11)
  {
    hide GetI32, InitialResponse, FinalResponse, VerifyServerFinal, Md5Response, Run;
    RunTo(c, who, requests, i);
    VerifySendsNothing(c, Run(c, who, requests[..i]), requests[i].bytes);
  }

  lemma VerifySendsNothing(c: Crypto, st: Progress, request: bytes)
    ensures |request| >= 4 ==> !VerifyServerFinal(c, st, request).outcome.Send?
  {
  }

  /** A request too short for a code, or of any code but 0, 3, 5, 10, 11 and 12, fails; neither it nor code 0 changes anything. */
  lemma OtherCodesFail(c: Crypto, who: Client, requests: seq<Request>, i: nat)
    requires i < |requests|
    ensures |requests[i].bytes| < 4 || GetI32(requests[i].bytes, 0) !in {0, 3, 5, 10, 11, 12} ==>
              Answer(c, who, requests, i) == Failed && Run(c, who, requests[..i + 1]) == Run(c, who, requests[..i])
    ensures HasCode(requests[i], 0) ==>
              Answer(c, who, requests, i) == Silent && Run(c, who, requests[..i + 1]) == Run(c, who, requests[..i])
  {
    hide GetI32, InitialResponse, FinalResponse, VerifyServerFinal, Md5Response, Run;
    RunTo(c, who, requests, i);
  }

  // ---------------------------------------------------------------- on the wire

  /** The client keys of section 3 of RFC 5802, for what the server sent in `serverFirst`. */
  predicate SaltedBy(c: Crypto, password: bytes, serverFirst: bytes, salted: bytes) {
    var salt, count := Attribute(serverFirst, S), Attribute(serverFirst, I);
    && salt.Some? && c.decode(salt.value).Some? && count.Some? && ParseU32(count.value).Some?
    && salted == c.pbkdf2(password, c.decode(salt.value).value, ParseU32(count.value).value)
  }

  /** A stored first message is the one every answered code 10 sends, after the mechanism, a length and `n,,`. */
  lemma {:induction false} BareIsSent(c: Crypto, who: Client, requests: seq<Request>) returns (k: nat)
    requires Run(c, who, requests).bare.Some?
    ensures Succeeds(c, who, requests, k, 10)
    ensures var bare := Run(c, who, requests).bare.value;
            Answer(c, who, requests, k) == Send(MECHANISM + [0] + PutI32(AsI32(|bare| + 3)) + ([110, 44, 44] + bare))
  {
    hide Scram.Respond, GetI32;
    var n := |requests| - 1;
    var before, r := Run(c, who, requests[..n]), requests[n];
    StepEffects(c, who, before, r.bytes, r.tls);
    if before.bare == Run(c, who, requests).bare {
      k := BareIsSent(c, who, requests[..n]);
      SucceedsPrefix(c, who, requests, n, k, 10);
      assert requests[..n][..k] == requests[..k];
    } else {
      k := n;
      InitialSends(c, who, before, r.bytes, r.tls);
    }
  }

  lemma InitialSends(c: Crypto, who: Client, st: Progress, request: bytes, tls: bool)
    requires |request| >= 4 && GetI32(request, 0) == 10 && Scram.Respond(c, who, st, request, tls).outcome != Failed
    ensures var r := Scram.Respond(c, who, st, request, tls);
            && r.state.bare.Some?
            && r.outcome == Send(MECHANISM + [0] + PutI32(AsI32(|r.state.bare.value| + 3)) + ([110, 44, 44] + r.state.bare.value))
  {
    hide GetI32, IsUtf8, Item, PutI32;
    assert |GS2 + Bare(who.username, who.nonce)| == |Bare(who.username, who.nonce)| + 3;
  }

  /** The final answer: the message without its proof, and the proof of the client's key over the auth message. */
  lemma FinalSends(c: Crypto, who: Client, st: Progress, request: bytes, tls: bool)
    returns (nonce: bytes, salted: bytes)
    requires |request| >= 4 && GetI32(request, 0) == 11 && Scram.Respond(c, who, st, request, tls).outcome != Failed
    ensures st.bare.Some? && SaltedBy(c, who.password, request[4..], salted)
    ensures who.nonce <= nonce && Attribute(request[4..], R) == Some(nonce)
    ensures var r := Scram.Respond(c, who, st, request, tls);
            var proofless := [C, EQUALS] + BIWS + [COMMA] + ([R, EQUALS] + nonce);
            var auth := st.bare.value + [COMMA] + request[4..] + [COMMA] + proofless;
            && r.outcome == Send(proofless + [COMMA] + ([P, EQUALS] + c.encode(ClientProof(c, salted, auth))))
            && r.state.expected == Some(c.hmac(c.hmac(salted, [83, 101, 114, 118, 101, 114, 32, 75, 101, 121]), auth))
  {
    hide GetI32, IsUtf8, Attribute, ParseU32, ClientProof;
    nonce := Attribute(request[4..], R).value;
    salted := c.pbkdf2(who.password, c.decode(Attribute(request[4..], S).value).value,
                       ParseU32(Attribute(request[4..], I).value).value);
  }

  /** `ClientProof` is the client's key hidden by its signature, which gives the key back. */
  lemma ProofGivesKey(c: Crypto, salted: bytes, auth: bytes)
    requires Lawful(c)
    ensures var key := c.hmac(salted, [67, 108, 105, 101, 110, 116, 32, 75, 101, 121]); var signature := c.hmac(c.hash(key), auth);
            && |ClientProof(c, salted, auth)| == |signature|
            && Xor(ClientProof(c, salted, auth), signature) == key
  {
    var key := c.hmac(salted, [67, 108, 105, 101, 110, 116, 32, 75, 101, 121]);
    XorCancels(key, c.hmac(c.hash(key), auth));
  }

  /**
   In every sequence of requests, an answered code 11 proves the client's key over what actually went over the wire:
   the first message sent after `n,,`, the server's reply, and the final message up to its proof, joined by commas. It
   then expects the server's signature of the same. The keys are made with the texts `Client Key` and `Server Key`.
   */
  lemma ProofIsOverTheWire(c: Crypto, who: Client, requests: seq<Request>, j: nat)
    returns (k: nat, bare: bytes, proofless: bytes, salted: bytes)
    requires Succeeds(c, who, requests, j, 11)
    ensures Succeeds(c, who, requests, k, 10) && k < j
    ensures Answer(c, who, requests, k) == Send(MECHANISM + [0] + PutI32(AsI32(|bare| + 3)) + ([110, 44, 44] + bare))
    ensures SaltedBy(c, who.password, requests[j].bytes[4..], salted)
    ensures var auth := bare + [COMMA] + requests[j].bytes[4..] + [COMMA] + proofless;
            && Answer(c, who, requests, j) == Send(proofless + [COMMA] + ([P, EQUALS] + c.encode(ClientProof(c, salted, auth))))
            && Run(c, who, requests[..j + 1]).expected == Some(c.hmac(c.hmac(salted, [83, 101, 114, 118, 101, 114, 32, 75, 101, 121]), auth))
  {
    hide Scram.Respond, GetI32, Run, SaltedBy, ClientProof, PutI32;
    var st := Run(c, who, requests[..j]);
    var nonce;
    nonce, salted := FinalSends(c, who, st, requests[j].bytes, requests[j].tls);
    bare, proofless := st.bare.value, [C, EQUALS] + BIWS + [COMMA] + ([R, EQUALS] + nonce);
    k := BareIsSent(c, who, requests[..j]);
    SucceedsPrefix(c, who, requests, j, k, 10);
    assert requests[..j][..k] == requests[..k];
    RunTo(c, who, requests, j);
  }

  /** And a code 12 answered without error carries that signature, of the exchange it ends. */
  lemma ServerSignsTheWire(c: Crypto, who: Client, requests: seq<Request>, i: nat)
    returns (k: nat, j: nat, bare: bytes, proofless: bytes, salted: bytes)
    requires Succeeds(c, who, requests, i, 12)
    ensures k < j < i && Succeeds(c, who, requests, k, 10) && Succeeds(c, who, requests, j, 11)
    ensures Answer(c, who, requests, k) == Send(MECHANISM + [0] + PutI32(AsI32(|bare| + 3)) + ([110, 44, 44] + bare))
    ensures SaltedBy(c, who.password, requests[j].bytes[4..], salted)
    ensures var auth := bare + [COMMA] + requests[j].bytes[4..] + [COMMA] + proofless;
            var signature := Attribute(requests[i].bytes[4..], V);
            && Answer(c, who, requests, j) == Send(proofless + [COMMA] + ([P, EQUALS] + c.encode(ClientProof(c, salted, auth))))
            && signature.Some? && c.decode(signature.value) == Some(c.hmac(c.hmac(salted, [83, 101, 114, 118, 101, 114, 32, 75, 101, 121]), auth))
  {
    hide Scram.Respond, GetI32, Run, SaltedBy, ClientProof, PutI32, Attribute;
    var st := Run(c, who, requests[..i]);
    VerifyNeeds(c, who, st, requests[i].bytes, requests[i].tls);
    j := ExpectedOrigin(c, who, requests[..i]);
    SucceedsPrefix(c, who, requests, i, j, 11);
    assert requests[..i][..j + 1] == requests[..j + 1];
    k, bare, proofless, salted := ProofIsOverTheWire(c, who, requests, j);
  }

  lemma VerifyNeeds(c: Crypto, who: Client, st: Progress, request: bytes, tls: bool)
    requires |request| >= 4 && GetI32(request, 0) == 12 && Scram.Respond(c, who, st, request, tls).outcome != Failed
    ensures st.expected.Some? && Attribute(request[4..], V).Some? && c.decode(Attribute(request[4..], V).value) == st.expected
  {
    hide GetI32, IsUtf8, Attribute;
  }

  // ------------------------------------------------------- exactly what is answered

  /** The mechanism stands in the list, set off by NULs. */
  ghost predicate Offers(list: bytes) {
    exists a, t :: list == a + [83, 67, 82, 65, 77, 45, 83, 72, 65, 45, 50, 53, 54] + t && Terminated(a, 0) && Continued(t, 0)
  }

  lemma OffersIff(list: bytes)
    ensures Offers(list) <==> MECHANISM in Split(list, 0)
  {
    if MECHANISM in Split(list, 0) {
      var a, t := PieceStands(list, 0, MECHANISM);
    }
    if a, t :| list == a + MECHANISM + t && Terminated(a, 0) && Continued(t, 0) {
      StandingPiece(a, MECHANISM, t, 0);
    }
  }

  /** A code 10 is answered if and only if it offers SCRAM-SHA-256. */
  lemma OfferAnsweredIff(c: Crypto, who: Client, st: Progress, request: bytes, tls: bool)
    requires |request| >= 4 && GetI32(request, 0) == 10
    ensures Scram.Respond(c, who, st, request, tls).outcome != Failed <==> IsUtf8(request[4..]) && Offers(request[4..])
  {
    hide GetI32, IsUtf8, Offers;
    OffersIff(request[4..]);
  }

  /**
   A code 11 is answered if and only if a first message was sent and the server's extends its nonce, has a salt, and
   asks for at least one iteration.
   */
  lemma ContinueAnsweredIff(c: Crypto, who: Client, st: Progress, request: bytes, tls: bool)
    requires |request| >= 4 && GetI32(request, 0) == 11
    ensures var nonce, salt, count := Attribute(request[4..], R), Attribute(request[4..], S), Attribute(request[4..], I);
            Scram.Respond(c, who, st, request, tls).outcome != Failed
            <==> && IsUtf8(request[4..]) && st.bare.Some?
                 && nonce.Some? && who.nonce <= nonce.value && salt.Some? && c.decode(salt.value).Some?
                 && count.Some? && ParseU32(count.value).Some? && ParseU32(count.value).value >= 1
  {
    hide GetI32, IsUtf8, Attribute, ParseU32, ClientProof;
  }

  /**
   A code 12 is answered if and only if it is no error report and carries the signature expected. One that is no error
   report uses up the expectation, right or wrong.
   */
  lemma FinalAnsweredIff(c: Crypto, who: Client, st: Progress, request: bytes, tls: bool)
    requires |request| >= 4 && GetI32(request, 0) == 12
    ensures var r, text := Scram.Respond(c, who, st, request, tls), request[4..];
            var reported := !IsUtf8(text) || (|text| >= 2 && text[0] == 101 && text[1] == 61);
            && (r.outcome != Failed
                <==> && !reported && st.expected.Some? && Attribute(text, V).Some?
                     && c.decode(Attribute(text, V).value) == st.expected)
            && r.state == (if reported then st else st.(expected := None))
  {
    hide GetI32, IsUtf8, Attribute;
  }
}
