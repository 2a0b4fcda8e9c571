/** Write-ahead log positions (lsn.rs): a u64 printed as two hexadecimal halves. */
module Lsn {
  import opened Wrappers
  import opened Bytes
  import opened Numbers

  const LOW: nat := 0x1_0000_0000

  type u32 = x: nat | x < LOW

  datatype LsnError = MissingSeparator | EmptyPart | InvalidSegment | InvalidOffset | SegmentOverflow | OffsetOverflow

  const SLASH: byte := 47

  function Segment(lsn: u64): u32 {
    lsn / LOW
  }

  function Offset(lsn: u64): u32 {
    lsn % LOW
  }

  function FromParts(segment: u32, offset: u32): u64 {
    segment * LOW + offset
  }

  /** An upper-case hexadecimal digit. */
  function Digit(d: nat): byte
    requires d < 16
  {
    if d < 10 then 48 + d else 55 + d
  }

  function Hex(x: nat): bytes {
    if x < 16 then [Digit(x)] else Hex(x / 16) + [Digit(x % 16)]
  }

  function Print(lsn: u64): bytes {
    Hex(Segment(lsn)) + [SLASH] + Hex(Offset(lsn))
  }

  predicate IsHex(b: byte) {
    48 <= b <= 57 || 97 <= b <= 102 || 65 <= b <= 70
  }

  function DigitValue(b: byte): nat
    requires IsHex(b)
  {
    if b <= 57 then b - 48 else if b >= 97 then b - 87 else b - 55
  }

  predicate AllHex(s: bytes) {
    forall i :: 0 <= i < |s| ==> IsHex(s[i])
  }

  function HexValue(s: bytes): nat
    requires AllHex(s)
  {
    if s == [] then 0 else HexValue(s[..|s| - 1]) * 16 + DigitValue(s[|s| - 1])
  }

  function Pow16(n: nat): nat {
    if n == 0 then 1 else 16 * Pow16(n - 1)
  }

  lemma {:induction false} HexValueBound(s: bytes)
    requires AllHex(s)
    ensures HexValue(s) < Pow16(|s|)
  {
    if s != [] {
      HexValueBound(s[..|s| - 1]);
    }
  }

  lemma {:induction false} Pow16Mono(m: nat, n: nat)
    requires m <= n
    ensures 1 <= Pow16(m) <= Pow16(n)
    decreases n
  {
    if m < n {
      Pow16Mono(m, n - 1);
    } else if n > 0 {
      Pow16Mono(m - 1, n - 1);
    }
  }

  lemma Fits8(s: bytes)
    requires AllHex(s) && |s| <= 8
    ensures HexValue(s) < LOW
  {
    HexValueBound(s);
    Pow16Mono(|s|, 8);
    assert Pow16(2) == 256 && Pow16(4) == 65536 && Pow16(6) == 16777216 && Pow16(8) == LOW;
  }

  /** The number written by up to eight hexadecimal digits; a bad digit among the first eight is seen before a ninth. */
  function ParseHex(s: bytes, invalid: LsnError, overflow: LsnError): Result<u32, LsnError> {
    var head := if |s| <= 8 then s else s[..8];
    if !AllHex(head) then Err(invalid)
    else if |s| > 8 then Err(overflow)
    else
      Fits8(s);
      Ok(HexValue(s))
  }

  /** `parse_hex_u32`. Its checked arithmetic never overflows: eight digits fit in 32 bits. */
  method ParseHexU32(s: bytes, invalid: LsnError, overflow: LsnError) returns (r: Result<u32, LsnError>)
    ensures r == ParseHex(s, invalid, overflow)
  {
    var value: u32 := 0;
    for i := 0 to |s|
      invariant i <= 8 && AllHex(s[..i]) && value == HexValue(s[..i])
    {
      if i == 8 {
        return Err(overflow);
      }
      if !IsHex(s[i]) {
        return Err(invalid);
      }
      assert s[..i + 1][..i] == s[..i] && AllHex(s[..i + 1]);
      Fits8(s[..i + 1]);
      if value * 16 >= LOW || value * 16 + DigitValue(s[i]) >= LOW {
        assert false;
      }
      value := value * 16 + DigitValue(s[i]);
    }
    assert s[..|s|] == s;
    r := Ok(value);
  }

  function FindSlash(s: bytes): Option<nat> {
    if s == [] then None
    else if s[0] == SLASH then Some(0)
    else
      match FindSlash(s[1..])
      case None => None
      case Some(i) => Some(i + 1)
  }

  function Parse(s: bytes): Result<u64, LsnError> {
    match FindSlash(s)
    case None => Err(MissingSeparator)
    case Some(at) =>
      if at >= |s| || at == 0 || at + 1 >= |s| then Err(EmptyPart)
      else
        match ParseHex(s[..at], InvalidSegment, SegmentOverflow)
        case Err(e) => Err(e)
        case Ok(segment) =>
          match ParseHex(s[at + 1..], InvalidOffset, OffsetOverflow)
          case Err(e) => Err(e)
          case Ok(offset) => Ok(FromParts(segment, offset))
  }

  lemma {:induction false} FindSlashAt(a: bytes, b: bytes)
    requires SLASH !in a
    ensures FindSlash(a + [SLASH] + b) == Some(|a|)
  {
    if a == [] {
      assert a + [SLASH] + b == [SLASH] + b;
    } else {
      FindSlashAt(a[1..], b);
      assert (a + [SLASH] + b)[1..] == a[1..] + [SLASH] + b;
    }
  }

  lemma {:induction false} SlashSplits(s: bytes)
    requires FindSlash(s).Some?
    ensures var at := FindSlash(s).value;
            at < |s| && s[at] == SLASH && SLASH !in s[..at] && s == s[..at] + [SLASH] + s[at + 1..]
  {
    if s[0] != SLASH {
      SlashSplits(s[1..]);
      var at := FindSlash(s).value;
      assert s[..at] == [s[0]] + s[1..][..at - 1];
    }
  }

  predicate Half(s: bytes) {
    1 <= |s| <= 8 && AllHex(s)
  }

  predicate Writes(a: bytes, b: bytes, s: bytes, lsn: u64) {
    s == a + [SLASH] + b && Half(a) && Half(b) && lsn == HexValue(a) * LOW + HexValue(b)
  }

  /** A text parses to `lsn` if and only if it is two halves of one to eight digits with those values. */
  lemma ParseIff(s: bytes, lsn: u64)
    ensures Parse(s) == Ok(lsn) <==> exists a, b :: Writes(a, b, s, lsn)
  {
    hide HexValue, Parse, FindSlash;
    if Parse(s) == Ok(lsn) {
      ParsedHalves(s, lsn);
    }
    if a, b :| Writes(a, b, s, lsn) {
      ParseHalves(a, b);
    }
  }

  lemma ParsedHalves(s: bytes, lsn: u64)
    requires Parse(s) == Ok(lsn)
    ensures exists a, b :: Writes(a, b, s, lsn)
  {
    hide HexValue;
    SlashSplits(s);
    var at := FindSlash(s).value;
    assert Writes(s[..at], s[at + 1..], s, lsn);
  }

  lemma ParseHalves(a: bytes, b: bytes)
    requires Half(a) && Half(b)
    ensures Fits(HexValue(a), HexValue(b)) && Parse(a + [SLASH] + b) == Ok(FromParts(HexValue(a), HexValue(b)))
  {
    FindSlashAt(a, b);
    Fits8(a);
    Fits8(b);
    var s := a + [SLASH] + b;
    assert s[..|a|] == a && s[|a| + 1..] == b;
  }

  predicate Fits(segment: nat, offset: nat) {
    segment < LOW && offset < LOW
  }

  lemma {:induction false} HexDigits(x: nat, n: nat)
    requires n >= 1 && x < Pow16(n)
    ensures 1 <= |Hex(x)| <= n && AllHex(Hex(x)) && HexValue(Hex(x)) == x
  {
    if x >= 16 {
      HexDigits(x / 16, n - 1);
      assert Hex(x)[..|Hex(x)| - 1] == Hex(x / 16);
    } else {
      assert Hex(x)[..0] == [];
    }
  }

  /** Parsing inverts printing, for every u64. */
  lemma ParsePrint(lsn: u64)
    ensures Parse(Print(lsn)) == Ok(lsn)
  {
    assert Pow16(2) == 256 && Pow16(4) == 65536 && Pow16(6) == 16777216 && Pow16(8) == LOW;
    HexDigits(Segment(lsn), 8);
    HexDigits(Offset(lsn), 8);
    ParseHalves(Hex(Segment(lsn)), Hex(Offset(lsn)));
  }

  /** The order of positions is the lexicographic order of (segment, offset), and the parts determine the position. */
  lemma OrderIsLexicographic(a: u64, b: u64)
    ensures a <= b <==> Segment(a) < Segment(b) || (Segment(a) == Segment(b) && Offset(a) <= Offset(b))
    ensures FromParts(Segment(a), Offset(a)) == a
  {
    assert a == Segment(a) * LOW + Offset(a) && b == Segment(b) * LOW + Offset(b);
  }

  /** Upper-case digits without leading zeros. */
  predicate Canonical(s: bytes) {
    s != [] && (|s| > 1 ==> s[0] != 48) && forall i :: 0 <= i < |s| ==> 48 <= s[i] <= 57 || 65 <= s[i] <= 70
  }

  lemma {:induction false} HexCanonical(x: nat)
    ensures Canonical(Hex(x)) && (x > 0 ==> Hex(x)[0] != 48)
  {
    if x >= 16 {
      HexCanonical(x / 16);
    }
  }

  /** A position prints as its upper and lower half, each canonical. */
  lemma PrintIsCanonical(lsn: u64) returns (segment: bytes, offset: bytes)
    ensures Print(lsn) == segment + [SLASH] + offset && Canonical(segment) && Canonical(offset)
    ensures AllHex(segment) && AllHex(offset) && HexValue(segment) == lsn / 0x1_0000_0000 && HexValue(offset) == lsn % 0x1_0000_0000
  {
    assert Pow16(2) == 256 && Pow16(4) == 65536 && Pow16(6) == 16777216 && Pow16(8) == LOW;
    segment, offset := Hex(Segment(lsn)), Hex(Offset(lsn));
    HexDigits(Segment(lsn), 8);
    HexDigits(Offset(lsn), 8);
    HexCanonical(Segment(lsn));
    HexCanonical(Offset(lsn));
  }
}
