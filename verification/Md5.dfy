/** MD5 password authentication (auth.rs, secrets.rs): what the client half sends and the server half accepts. */
module Md5 {
  import opened Wrappers
  import opened Bytes
  import opened Scram
  import opened ScramAgreement

  predicate LowerHex(s: bytes) {
    forall i :: 0 <= i < |s| ==> 48 <= s[i] <= 57 || 97 <= s[i] <= 102
  }

  /** `Md5Secret::parse`: the 32 digits after `md5`. */
  function ParseSecret(secret: bytes): Option<bytes> {
    if MD5_PREFIX <= secret && |secret| == 35 && LowerHex(secret[3..]) then Some(secret[3..]) else None
  }

  /** `parse_md5_password_response`: the same, with or without a NUL at the end. */
  function ParseResponse(payload: bytes): Option<bytes> {
    ParseSecret(if payload != [] && payload[|payload| - 1] == 0 then payload[..|payload| - 1] else payload)
  }

  /** `expected_md5_client_hash`. */
  function Expected(c: Crypto, stored: bytes, salt: bytes): bytes {
    HexLower(c.md5(stored + salt))
  }

  /** What `authenticate_md5` makes of an answer. */
  predicate Accepts(c: Crypto, stored: bytes, salt: bytes, payload: bytes) {
    ParseResponse(payload) == Some(Expected(c, stored, salt))
  }

  ghost predicate Md5Sized(c: Crypto) {
    forall x :: |c.md5(x)| == 16
  }

  /** `hex_lower`, as the loop it is. */
  method HexLowerText(s: bytes) returns (output: bytes)
    ensures output == HexLower(s)
  {
    output := [];
    for i := 0 to |s|
      invariant output + HexLower(s[i..]) == HexLower(s)
    {
      assert s[i..][1..] == s[i + 1..];
      output := output + [HexDigit(s[i] / 16)] + [HexDigit(s[i] % 16)];
      assert output + HexLower(s[i + 1..]) == HexLower(s);
    }
    assert s[|s|..] == [];
  }

  function HexValue(d: byte): int {
    if d <= 57 then d - 48 else d - 87
  }

  /** Two digits a byte, the high half first, and nothing but lowercase digits. */
  lemma {:induction false} HexReads(s: bytes)
    ensures |HexLower(s)| == 2 * |s| && LowerHex(HexLower(s))
    ensures forall i :: 0 <= i < |s| ==> 16 * HexValue(HexLower(s)[2 * i]) + HexValue(HexLower(s)[2 * i + 1]) == s[i]
  {
    if s != [] {
      HexReads(s[1..]);
      forall i | 0 <= i < |s|
        ensures 16 * HexValue(HexLower(s)[2 * i]) + HexValue(HexLower(s)[2 * i + 1]) == s[i]
      {
        if i > 0 {
          assert s[i] == s[1..][i - 1];
          assert HexLower(s)[2 * i] == HexLower(s[1..])[2 * (i - 1)];
          assert HexLower(s)[2 * i + 1] == HexLower(s[1..])[2 * (i - 1) + 1];
        }
      }
    }
  }

  lemma SecretIff(secret: bytes, digits: bytes)
    requires |digits| == 32 && LowerHex(digits)
    ensures ParseSecret(secret) == Some(digits) <==> secret == MD5_PREFIX + digits
  {
    if ParseSecret(secret) == Some(digits) {
      assert secret == secret[..3] + secret[3..];
    } else {
      assert (MD5_PREFIX + digits)[3..] == digits;
    }
  }

  /** The server accepts an answer if and only if it is `md5` and the expected digits, with or without a NUL. */
  lemma AcceptsIff(c: Crypto, stored: bytes, salt: bytes, payload: bytes)
    requires Md5Sized(c)
    ensures Accepts(c, stored, salt, payload)
       <==> payload == MD5_PREFIX + Expected(c, stored, salt) || payload == MD5_PREFIX + Expected(c, stored, salt) + [0]
  {
    var digits := Expected(c, stored, salt);
    HexReads(c.md5(stored + salt));
    hide HexLower;
    var text := MD5_PREFIX + digits;
    assert text[34] == digits[31] != 0;
    hide ParseSecret, LowerHex;
    if payload != [] && payload[|payload| - 1] == 0 {
      SecretIff(payload[..|payload| - 1], digits);
      assert payload == payload[..|payload| - 1] + [0];
      assert (text + [0])[..35] == text;
    } else {
      SecretIff(payload, digits);
    }
  }

  /** What PostgreSQL stores for a password: `md5` and the digits of the digest of password and name. */
  function Stored(c: Crypto, who: Client): bytes {
    MD5_PREFIX + HexLower(c.md5(who.password + who.username))
  }

  /**
   The client half's answer to a salt is accepted by the server half that stores this client's password, and by one
   that stores another exactly when both digests agree on the salt.
   */
  lemma AnswerAccepted(c: Crypto, who: Client, st: Progress, salt: bytes, tls: bool, secret: bytes)
    requires Md5Sized(c) && |salt| == 4 && ParseSecret(secret).Some?
    ensures var r := Respond(c, who, st, PutI32(5) + salt, tls);
            && r.state == st && r.outcome.Send? && ParseSecret(Stored(c, who)).Some?
            && (Accepts(c, ParseSecret(secret).value, salt, r.outcome.payload)
                <==> c.md5(ParseSecret(secret).value + salt) == c.md5(ParseSecret(Stored(c, who)).value + salt))
            && (secret == Stored(c, who) ==> Accepts(c, ParseSecret(secret).value, salt, r.outcome.payload))
  {
    hide HexLower;
    var request := PutI32(5) + salt;
    CodeOf(5, salt);
    assert request[4..8] == salt;
    HexReads(c.md5(who.password + who.username));
    var stored := HexLower(c.md5(who.password + who.username));
    assert Stored(c, who)[3..] == stored;
    var mine, theirs := c.md5(stored + salt), c.md5(ParseSecret(secret).value + salt);
    AcceptsIff(c, ParseSecret(secret).value, salt, MD5_PREFIX + HexLower(mine) + [0]);
    HexReads(mine);
    HexReads(theirs);
    if HexLower(mine) == HexLower(theirs) {
      HexInjective(mine, theirs);
    }
  }

  lemma HexInjective(a: bytes, b: bytes)
    requires HexLower(a) == HexLower(b)
    ensures a == b
  {
    hide HexLower;
    HexReads(a);
    HexReads(b);
    assert |a| == |b|;
  }
}
