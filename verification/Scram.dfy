/**
 SCRAM-SHA-256 between the proxy's two halves (auth.rs; section 3 of RFC 5802, and RFC 7677): the client half that
 answers a backend and the server half that checks a client. The primitives are parameters; only their lengths,
 the base64 inverse and its alphabet are used.
 */
module Scram {
  import opened Wrappers
  import opened Bytes
  import opened Names
  import opened ScramText

  datatype Crypto = Crypto(
    hmac: (bytes, bytes) -> bytes,
    hash: bytes -> bytes,
    pbkdf2: (bytes, bytes, nat) -> bytes,
    md5: bytes -> bytes,
    encode: bytes -> bytes,
    decode: bytes -> Option<bytes>)

  /** ASCII without commas or NUL, as base64 text is. */
  predicate Plain(s: bytes) {
    forall i :: 0 <= i < |s| ==> 0 < s[i] < 128 && s[i] != COMMA
  }

  ghost predicate Lawful(c: Crypto) {
    && (forall k, m :: |c.hmac(k, m)| == 32)
    && (forall x :: |c.hash(x)| == 32)
    && (forall x :: c.decode(c.encode(x)) == Some(x) && Plain(c.encode(x)))
  }

  // ---------------------------------------------------------------------- xor

  /** The lowest bits, exclusive-or'd. */
  function XorBit(a: nat, b: nat): nat {
    if a % 2 == b % 2 then 0 else 1
  }

  /** The lowest `n` bits, exclusive-or'd. */
  function XorBits(a: nat, b: nat, n: nat): nat {
    if n == 0 then 0 else XorBit(a, b) + 2 * XorBits(a / 2, b / 2, n - 1)
  }

  function Pow2(n: nat): nat {
    if n == 0 then 1 else 2 * Pow2(n - 1)
  }

  lemma Halves(bit: nat, rest: nat)
    requires bit < 2
    ensures (bit + 2 * rest) % 2 == bit && (bit + 2 * rest) / 2 == rest
  {
  }

  /** A second exclusive or restores the lowest bit, and leaves the higher ones to the higher ones. */
  lemma BitRestored(a: nat, b: nat, rest: nat)
    ensures var x := XorBit(a, b) + 2 * rest;
            x / 2 == rest && XorBit(x, b) == a % 2
  {
    Halves(XorBit(a, b), rest);
  }

  lemma {:induction false} XorBitsCancel(a: nat, b: nat, n: nat)
    requires a < Pow2(n)
    ensures XorBits(a, b, n) < Pow2(n) && XorBits(XorBits(a, b, n), b, n) == a
  {
    if n > 0 {
      var rest := XorBits(a / 2, b / 2, n - 1);
      assert a == a % 2 + 2 * (a / 2);
      assert XorBit(a, b) < 2;
      hide XorBit;
      XorBitsCancel(a / 2, b / 2, n - 1);
      BitRestored(a, b, rest);
      var x := XorBit(a, b) + 2 * rest;
      assert XorBits(x, b, n) == XorBit(x, b) + 2 * XorBits(x / 2, b / 2, n - 1);
    }
  }

  lemma Byte8(a: byte, b: byte)
    ensures XorBits(a, b, 8) < 256 && XorBits(XorBits(a, b, 8), b, 8) == a
  {
    assert Pow2(4) == 16 && Pow2(8) == 256;
    XorBitsCancel(a, b, 8);
  }

  function XorByte(a: byte, b: byte): byte {
    Byte8(a, b);
    XorBits(a, b, 8)
  }

  function Xor(left: bytes, right: bytes): bytes
    requires |left| == |right|
  {
    seq(|left|, i requires 0 <= i < |left| => XorByte(left[i], right[i]))
  }

  /** `xor_arrays` and `xor_bytes`. */
  method XorArrays(left: bytes, right: bytes) returns (output: bytes)
    requires |left| == |right|
    ensures output == Xor(left, right)
  {
    var out := new byte[|left|](_ => 0);
    for i := 0 to |left|
      invariant forall j :: 0 <= j < i ==> out[j] == XorByte(left[j], right[j])
    {
      out[i] := XorByte(left[i], right[i]);
    }
    output := out[..];
  }

  lemma XorCancels(left: bytes, right: bytes)
    requires |left| == |right|
    ensures Xor(Xor(left, right), right) == left
  {
    forall i | 0 <= i < |left|
      ensures XorByte(XorByte(left[i], right[i]), right[i]) == left[i]
    {
      Byte8(left[i], right[i]);
    }
  }

  // -------------------------------------------------------------- client half

  const CLIENT_KEY: bytes := [67, 108, 105, 101, 110, 116, 32, 75, 101, 121]  // "Client Key"
  const SERVER_KEY: bytes := [83, 101, 114, 118, 101, 114, 32, 75, 101, 121]  // "Server Key"
  const MD5_PREFIX: bytes := [109, 100, 53]  // "md5"

  datatype Client = Client(username: bytes, password: bytes, nonce: bytes)

  /** The fields `respond` updates. */
  datatype Progress = Progress(bare: Option<bytes>, expected: Option<bytes>)

  const START := Progress(None, None)

  /** An error, nothing to send, or a password message with this payload. */
  datatype Outcome = Failed | Silent | Send(payload: bytes)

  datatype Reply = Reply(state: Progress, outcome: Outcome)

  function HexDigit(d: nat): byte
    requires d < 16
  {
    if d < 10 then 48 + d else 87 + d
  }

  function HexLower(s: bytes): bytes {
    if s == [] then [] else [HexDigit(s[0] / 16), HexDigit(s[0] % 16)] + HexLower(s[1..])
  }

  function Md5Response(c: Crypto, who: Client, request: bytes): Outcome {
    if |request| != 8 then Failed
    else Send(MD5_PREFIX + HexLower(c.md5(HexLower(c.md5(who.password + who.username)) + request[4..8])) + [0])
  }

  function Bare(username: bytes, nonce: bytes): bytes {
    Item(N, Escape(username)) + [COMMA] + Item(R, nonce)
  }

  /** Mechanism, NUL, length, message. */
  function InitialPayload(message: bytes): bytes {
    MECHANISM + [0] + PutI32(AsI32(|message|)) + message
  }

  function InitialResponse(who: Client, st: Progress, request: bytes): Reply
    requires |request| >= 4
  {
    if !IsUtf8(request[4..]) || MECHANISM !in Split(request[4..], 0) then Reply(st, Failed)
    else
      var bare := Bare(who.username, who.nonce);
      Reply(st.(bare := Some(bare)), Send(InitialPayload(GS2 + bare)))
  }

  function WithoutProof(nonce: bytes): bytes {
    Item(C, BIWS) + [COMMA] + Item(R, nonce)
  }

  function AuthMessage(bare: bytes, serverFirst: bytes, nonce: bytes): bytes {
    bare + [COMMA] + serverFirst + [COMMA] + WithoutProof(nonce)
  }

  function ClientProof(c: Crypto, salted: bytes, auth: bytes): bytes {
    var clientKey := c.hmac(salted, CLIENT_KEY);
    var signature := c.hmac(c.hash(clientKey), auth);
    if |clientKey| == |signature| then Xor(clientKey, signature) else []
  }

  function FinalResponse(c: Crypto, who: Client, st: Progress, request: bytes): Reply
    requires |request| >= 4
  {
    var serverFirst := request[4..];
    var nonce, salt, count := Attribute(serverFirst, R), Attribute(serverFirst, S), Attribute(serverFirst, I);
    if !IsUtf8(serverFirst) || nonce.None? || !(who.nonce <= nonce.value) || salt.None? then Reply(st, Failed)
    else
      var decoded := c.decode(salt.value);
      if decoded.None? || count.None? then Reply(st, Failed)
      else
        var iterations := ParseU32(count.value);
        if iterations.None? || iterations.value == 0 || st.bare.None? then Reply(st, Failed)
        else
          var auth := AuthMessage(st.bare.value, serverFirst, nonce.value);
          var salted := c.pbkdf2(who.password, decoded.value, iterations.value);
          var expected := c.hmac(c.hmac(salted, SERVER_KEY), auth);
          Reply(st.(expected := Some(expected)),
                Send(WithoutProof(nonce.value) + [COMMA] + Item(P, c.encode(ClientProof(c, salted, auth)))))
  }

  /** The stored signature is consumed before the server's is looked at, but not for a server error. */
  function VerifyServerFinal(c: Crypto, st: Progress, request: bytes): Reply
    requires |request| >= 4
  {
    var serverFinal := request[4..];
    if !IsUtf8(serverFinal) || [101, EQUALS] <= serverFinal || st.expected.None? then Reply(st, Failed)
    else
      var taken := st.(expected := None);
      var signature := Attribute(serverFinal, V);
      if signature.Some? && c.decode(signature.value) == st.expected then Reply(taken, Silent) else Reply(taken, Failed)
  }

  /** `BackendAuthSession::respond`. */
  function Respond(c: Crypto, who: Client, st: Progress, request: bytes, tls: bool): Reply {
    if |request| < 4 then Reply(st, Failed)
    else
      var code: int := GetI32(request, 0);
      if code == 0 then Reply(st, Silent)
      else if code == 3 then Reply(st, if tls then Send(who.password + [0]) else Failed)
      else if code == 5 then Reply(st, Md5Response(c, who, request))
      else if code == 10 then InitialResponse(who, st, request)
      else if code == 11 then FinalResponse(c, who, st, request)
      else if code == 12 then VerifyServerFinal(c, st, request)
      else Reply(st, Failed)
  }

  // -------------------------------------------------------------- server half

  datatype Verifier = Verifier(salt: bytes, iterations: nat, storedKey: bytes, serverKey: bytes)

  /** The verifier was made from this password. */
  predicate Matches(c: Crypto, password: bytes, v: Verifier) {
    var salted := c.pbkdf2(password, v.salt, v.iterations);
    v.storedKey == c.hash(c.hmac(salted, CLIENT_KEY)) && v.serverKey == c.hmac(salted, SERVER_KEY)
  }

  datatype Initial = Initial(mechanism: bytes, message: bytes)

  /** `parse_scram_initial_response`. */
  function ParseInitialResponse(payload: bytes): Option<Initial> {
    match ReadCStr(payload, 0)
    case Err(_) => None
    case Ok(mechanism) =>
      if |payload| < mechanism.next + 4 then None
      else
        var length: int := GetI32(payload, mechanism.next);
        var start := mechanism.next + 4;
        if length < 0 || |payload| < start + length || !IsUtf8(payload[start..start + length]) then None
        else Some(Initial(mechanism.text, payload[start..start + length]))
  }

  function ServerFirst(c: Crypto, v: Verifier, nonce: bytes): bytes {
    Item(R, nonce) + [COMMA] + (Item(S, c.encode(v.salt)) + [COMMA] + Item(I, Decimal(v.iterations)))
  }

  /** `verify_scram_proof`. */
  predicate VerifyProof(c: Crypto, v: Verifier, auth: bytes, proof: bytes) {
    var decoded := c.decode(proof);
    var signature := c.hmac(v.storedKey, auth);
    && decoded.Some? && |decoded.value| == |v.storedKey| && |signature| == |decoded.value|
    && c.hash(Xor(decoded.value, signature)) == v.storedKey
  }

  /** What `authenticate_scram` makes of the client's final message: the server-final message, or a refusal. */
  function ServerAccepts(c: Crypto, v: Verifier, bare: bytes, serverFirst: bytes, nonce: bytes, final: bytes): Option<bytes> {
    match ParseClientFinal(final)
    case None => None
    case Some(m) =>
      if !IsUtf8(final) || m.binding != BIWS || m.nonce != nonce then None
      else
        var auth := AuthMessage(bare, serverFirst, nonce);
        if VerifyProof(c, v, auth, m.proof) then Some(Item(V, c.encode(c.hmac(v.serverKey, auth)))) else None
  }

  /** The requests the server half sends, and a backend too. */
  function SaslRequest(): bytes {
    PutI32(10) + (MECHANISM + [0] + [0])
  }

  function ContinueRequest(serverFirst: bytes): bytes {
    PutI32(11) + serverFirst
  }

  function FinalRequest(serverFinal: bytes): bytes {
    PutI32(12) + serverFinal
  }
}
