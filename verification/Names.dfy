/** Decimal text and the backend statement names `pgk_{session}_{key}`. */
module Names {
  import opened Bytes

  const UNDERSCORE: byte := 95

  const PGK: bytes := [112, 103, 107, 95]  // "pgk_"

  predicate Digits(b: bytes) {
    forall i :: 0 <= i < |b| ==> 48 <= b[i] <= 57
  }

  /** `format!("{n}")` for an unsigned integer. */
  function Decimal(n: nat): (b: bytes)
    ensures b != [] && Digits(b)
  {
    if n < 10 then [48 + n] else Decimal(n / 10) + [48 + n % 10]
  }

  /** The number a digit string denotes. */
  function Value(b: bytes): nat
    requires Digits(b)
  {
    if b == [] then 0 else Value(b[..|b| - 1]) * 10 + (b[|b| - 1] - 48)
  }

  lemma {:induction false} ValueDecimal(n: nat)
    ensures Value(Decimal(n)) == n
  {
    if n >= 10 {
      ValueDecimal(n / 10);
      assert Decimal(n)[..|Decimal(n)| - 1] == Decimal(n / 10);
    }
  }

  lemma SplitUnique(x: bytes, sep: byte, y: bytes, x': bytes, y': bytes)
    requires sep !in x && sep !in x' && x + [sep] + y == x' + [sep] + y'
    ensures x == x' && y == y'
  {
    var s := x + [sep] + y;
    assert s == x' + [sep] + y';
    assert s[|x|] == sep && s[|x'|] == sep;
    assert x == s[..|x|] == x' && y == s[|x| + 1..] == y';
  }

  /** `format!("pgk_{}_{}", session_id, cache_key)` (prepare.rs). */
  function BackendName(session: nat, key: nat): bytes {
    PGK + (Decimal(session) + [UNDERSCORE] + Decimal(key))
  }

  /** Distinct (session, key) pairs have distinct backend names. */
  lemma BackendNameInjective(s: nat, k: nat, s': nat, k': nat)
    requires BackendName(s, k) == BackendName(s', k')
    ensures s == s' && k == k'
  {
    var tail, tail' := Decimal(s) + [UNDERSCORE] + Decimal(k), Decimal(s') + [UNDERSCORE] + Decimal(k');
    assert tail == (PGK + tail)[4..] == (PGK + tail')[4..] == tail';
    SplitUnique(Decimal(s), UNDERSCORE, Decimal(k), Decimal(s'), Decimal(k'));
    ValueDecimal(s);
    ValueDecimal(s');
    ValueDecimal(k);
    ValueDecimal(k');
  }

  /** A backend name is a non-empty ASCII string without NUL. */
  lemma BackendNameIsName(session: nat, key: nat)
    ensures var n := BackendName(session, key); n != [] && IsUtf8(n) && NoNul(n)
  {
    var n := BackendName(session, key);
    assert forall i :: 0 <= i < |n| ==> 0 < n[i] < 128;
    AsciiIsUtf8(n);
  }

  lemma {:induction false} DecimalCanonical(n: nat)
    ensures |Decimal(n)| > 1 ==> Decimal(n)[0] != 48
  {
    if n >= 10 {
      DecimalCanonical(n / 10);
    }
  }

  /** Read back, it is `pgk_`, the session and the key, in that order, as numbers without leading zeros. */
  lemma BackendNameReads(session: nat, key: nat) returns (first: bytes, second: bytes)
    ensures BackendName(session, key) == [112, 103, 107, 95] + (first + [95] + second)
    ensures first != [] && Digits(first) && Value(first) == session && (|first| > 1 ==> first[0] != 48)
    ensures second != [] && Digits(second) && Value(second) == key && (|second| > 1 ==> second[0] != 48)
  {
    first, second := Decimal(session), Decimal(key);
    ValueDecimal(session);
    ValueDecimal(key);
    DecimalCanonical(session);
    DecimalCanonical(key);
  }
}
