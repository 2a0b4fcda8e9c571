/** Bytes, big-endian integers, UTF-8 validity and NUL-terminated strings, as the wire code reads and writes them. */
module Bytes {
  import opened Wrappers

  type byte = x: int | 0 <= x < 256

  type bytes = seq<byte>

  type i32 = x: int | -0x8000_0000 <= x < 0x8000_0000

  type i16 = x: int | -0x8000 <= x < 0x8000

  datatype WireError =
    | InvalidStartupLength(length: i32)
    | IncompleteStartupPacket
    | UnterminatedStartupParameters
    | MissingStartupParameterValue(key: bytes)
    | InvalidUtf8
    | InvalidFrameLength(length: i32)
    | IncompleteFrame
    | InvalidBackendFrameLength(length: i32)

  // ---------------------------------------------------------------- integers

  /** `n as i32`: keep the low 32 bits and read them as two's complement. */
  function AsI32(n: int): i32 {
    (n + 0x8000_0000) % 0x1_0000_0000 - 0x8000_0000
  }

  /** `n as i16`. */
  function AsI16(n: int): i16 {
    (n + 0x8000) % 0x1_0000 - 0x8000
  }

  /** `put_i32`. */
  function PutI32(x: i32): (b: bytes)
    ensures |b| == 4
  {
    var u := if x < 0 then x + 0x1_0000_0000 else x;
    [u / 0x100_0000, u / 0x1_0000 % 0x100, u / 0x100 % 0x100, u % 0x100]
  }

  /** `i32::from_be_bytes` on the four bytes at `at`. */
  function GetI32(b: bytes, at: nat): i32
    requires at + 4 <= |b|
  {
    var u := b[at] as int * 0x100_0000 + b[at + 1] as int * 0x1_0000 + b[at + 2] as int * 0x100 + b[at + 3] as int;
    if u >= 0x8000_0000 then u - 0x1_0000_0000 else u
  }

  /** `put_i16`. */
  function PutI16(x: i16): (b: bytes)
    ensures |b| == 2
  {
    var u := if x < 0 then x + 0x1_0000 else x;
    [u / 0x100, u % 0x100]
  }

  /** `i16::from_be_bytes` on the two bytes at `at`. */
  function GetI16(b: bytes, at: nat): i16
    requires at + 2 <= |b|
  {
    var u := b[at] as int * 0x100 + b[at + 1] as int;
    if u >= 0x8000 then u - 0x1_0000 else u
  }

  function Base256(p: byte, q: byte, r: byte, s: byte): int {
    p as int * 0x100_0000 + q as int * 0x1_0000 + r as int * 0x100 + s as int
  }

  lemma UpperDigits(p: byte, q: byte, r: byte, s: byte)
    ensures Base256(p, q, r, s) / 0x100_0000 == p && Base256(p, q, r, s) / 0x1_0000 % 0x100 == q
  {
    var low2, low3 := r as int * 0x100 + s as int, q as int * 0x1_0000 + r as int * 0x100 + s as int;
    assert Base256(p, q, r, s) == 0x100_0000 * p as int + low3 && 0 <= low3 < 0x100_0000;
    assert Base256(p, q, r, s) == 0x1_0000 * (p as int * 0x100 + q as int) + low2 && 0 <= low2 < 0x1_0000;
  }

  lemma LowerDigits(p: byte, q: byte, r: byte, s: byte)
    ensures Base256(p, q, r, s) / 0x100 % 0x100 == r && Base256(p, q, r, s) % 0x100 == s
  {
    var high := p as int * 0x100 + q as int;
    assert Base256(p, q, r, s) == 0x100 * (0x100 * high + r as int) + s as int;
  }

  lemma PutGetI32(b: bytes, at: nat)
    requires at + 4 <= |b|
    ensures PutI32(GetI32(b, at)) == b[at..at + 4]
  {
    var u := Base256(b[at], b[at + 1], b[at + 2], b[at + 3]);
    var x: int := GetI32(b, at);
    assert u == (if x < 0 then x + 0x1_0000_0000 else x) && 0 <= u < 0x1_0000_0000;
    hide GetI32;
    UpperDigits(b[at], b[at + 1], b[at + 2], b[at + 3]);
    LowerDigits(b[at], b[at + 1], b[at + 2], b[at + 3]);
    hide Base256;
    assert PutI32(GetI32(b, at)) == [u / 0x100_0000, u / 0x1_0000 % 0x100, u / 0x100 % 0x100, u % 0x100];
  }

  lemma PutGetI16(b: bytes, at: nat)
    requires at + 2 <= |b|
    ensures PutI16(GetI16(b, at)) == b[at..at + 2]
  {
  }

  lemma I32RoundTrip(b: bytes, at: nat, x: i32)
    requires at + 4 <= |b| && b[at..at + 4] == PutI32(x)
    ensures GetI32(b, at) == x
  {
    var u := if x < 0 then x + 0x1_0000_0000 else x;
    assert b[at] == b[at..at + 4][0] && b[at + 1] == b[at..at + 4][1];
    assert b[at + 2] == b[at..at + 4][2] && b[at + 3] == b[at..at + 4][3];
    assert u / 0x100 == u / 0x1_0000 * 0x100 + u / 0x100 % 0x100;
    assert u / 0x1_0000 == u / 0x100_0000 * 0x100 + u / 0x1_0000 % 0x100;
  }

  lemma I16RoundTrip(b: bytes, at: nat, x: i16)
    requires at + 2 <= |b| && b[at..at + 2] == PutI16(x)
    ensures GetI16(b, at) == x
  {
    assert b[at] == b[at..at + 2][0] && b[at + 1] == b[at..at + 2][1];
  }

  // ------------------------------------------------------------------- UTF-8

  predicate Continuation(b: byte) {
    0x80 <= b <= 0xBF
  }

  /** Length of the well-formed UTF-8 sequence at the front of `s` (table 3-7 of the Unicode Standard), or 0. */
  function Utf8Head(s: bytes): (n: nat)
    ensures n <= |s|
  {
    if |s| >= 1 && s[0] <= 0x7F then 1
    else if |s| >= 2 && 0xC2 <= s[0] <= 0xDF && Continuation(s[1]) then 2
    else if |s| >= 3 && 0xE0 <= s[0] <= 0xEF && Continuation(s[1]) && Continuation(s[2])
            && (s[0] == 0xE0 ==> s[1] >= 0xA0) && (s[0] == 0xED ==> s[1] <= 0x9F) then 3
    else if |s| >= 4 && 0xF0 <= s[0] <= 0xF4 && Continuation(s[1]) && Continuation(s[2]) && Continuation(s[3])
            && (s[0] == 0xF0 ==> s[1] >= 0x90) && (s[0] == 0xF4 ==> s[1] <= 0x8F) then 4
    else 0
  }

  /** `std::str::from_utf8(s).is_ok()`. */
  predicate IsUtf8(s: bytes) {
    s == [] || (Utf8Head(s) > 0 && IsUtf8(s[Utf8Head(s)..]))
  }

  predicate IsAscii(s: bytes) {
    forall i :: 0 <= i < |s| ==> s[i] < 128
  }

  lemma {:induction false} AsciiIsUtf8(s: bytes)
    requires IsAscii(s)
    ensures IsUtf8(s)
  {
    if s != [] {
      AsciiIsUtf8(s[1..]);
    }
  }

  lemma Utf8HeadConcat(a: bytes, b: bytes)
    requires Utf8Head(a) > 0
    ensures Utf8Head(a + b) == Utf8Head(a)
  {
    assert forall i :: 0 <= i < |a| ==> (a + b)[i] == a[i];
  }

  lemma {:induction false} Utf8Concat(a: bytes, b: bytes)
    requires IsUtf8(a) && IsUtf8(b)
    ensures IsUtf8(a + b)
  {
    if a == [] {
      assert a + b == b;
    } else {
      var n := Utf8Head(a);
      Utf8HeadConcat(a, b);
      Utf8Concat(a[n..], b);
      assert (a + b)[n..] == a[n..] + b;
    }
  }

  // -------------------------------------------------- NUL-terminated strings

  predicate NoNul(s: bytes) {
    0 !in s
  }

  /** `write_cstr`: the bytes of the string and one NUL. */
  function CStr(s: bytes): bytes {
    s + [0]
  }

  /** Index of the first NUL at or after `start`: `find_null`, `position(|byte| *byte == 0)`. */
  function FindNul(b: bytes, start: nat): (r: Option<nat>)
    requires start <= |b|
    ensures r.Some? ==> start <= r.value < |b| && b[r.value] == 0 && NoNul(b[start..r.value])
    ensures r.None? ==> NoNul(b[start..])
    decreases |b| - start
  {
    if start == |b| then None
    else if b[start] == 0 then Some(start)
    else
      var r := FindNul(b, start + 1);
      assert b[start..] == [b[start]] + b[start + 1..];
      assert r.Some? ==> b[start..r.value] == [b[start]] + b[start + 1..r.value];
      r
  }

  /** A string read from a buffer and the offset just past its NUL. */
  datatype Text = Text(text: bytes, next: nat)

  /** `read_cstr`. */
  function ReadCStr(b: bytes, start: nat): (r: Result<Text, WireError>)
    ensures r.Ok? ==> start + |r.value.text| + 1 == r.value.next <= |b|
    ensures r.Ok? ==> b[start..r.value.next] == CStr(r.value.text) && NoNul(r.value.text) && IsUtf8(r.value.text)
  {
    if start > |b| then Err(IncompleteFrame)
    else match FindNul(b, start)
      case None => Err(IncompleteFrame)
      case Some(end) =>
        if IsUtf8(b[start..end]) then Ok(Text(b[start..end], end + 1)) else Err(InvalidUtf8)
  }

  lemma {:induction false} FindNulAt(b: bytes, start: nat, end: nat)
    requires start <= end < |b| && b[end] == 0 && NoNul(b[start..end])
    ensures FindNul(b, start) == Some(end)
    decreases end - start
  {
    if start < end {
      assert b[start] == b[start..end][0];
      assert b[start + 1..end] == b[start..end][1..];
      FindNulAt(b, start + 1, end);
    }
  }

  /** Reading back a string written with `write_cstr`: exact when the string holds no NUL, never otherwise. */
  lemma ReadCStrAt(b: bytes, at: nat, s: bytes)
    requires IsUtf8(s)
    requires at + |s| < |b| && b[at..at + |s|] == s && b[at + |s|] == 0
    ensures ReadCStr(b, at) == Ok(Text(s, at + |s| + 1)) <==> NoNul(s)
  {
    hide IsUtf8;
    if NoNul(s) {
      FindNulAt(b, at, at + |s|);
    }
  }

  // ---------------------------------------------------------------- splitting

  /** Where the two parts of a written pair stand. */
  lemma Cut(b: bytes, at: nat, x: bytes, y: bytes)
    requires at + |x + y| <= |b| && b[at..at + |x + y|] == x + y
    ensures b[at..at + |x|] == x && b[at + |x|..at + |x| + |y|] == y
  {
    assert b[at..at + |x|] == (x + y)[..|x|];
    assert b[at + |x|..at + |x| + |y|] == (x + y)[|x|..];
  }

  /** `split(sep)`: the pieces between separators, always at least one. */
  function Split(b: bytes, sep: byte): (parts: seq<bytes>)
    ensures |parts| >= 1
  {
    if b == [] then [[]]
    else
      var rest := Split(b[1..], sep);
      if b[0] == sep then [[]] + rest else [[b[0]] + rest[0]] + rest[1..]
  }

  lemma {:induction false} SplitWhole(a: bytes, sep: byte)
    requires sep !in a
    ensures Split(a, sep) == [a]
  {
    if a != [] {
      SplitWhole(a[1..], sep);
      assert [a[0]] + a[1..] == a;
    }
  }

  lemma {:induction false} SplitHead(a: bytes, sep: byte, rest: bytes)
    requires sep !in a
    ensures Split(a + [sep] + rest, sep) == [a] + Split(rest, sep)
  {
    var b := a + [sep] + rest;
    if a == [] {
      assert b[1..] == rest;
    } else {
      SplitHead(a[1..], sep, rest);
      assert b[1..] == a[1..] + [sep] + rest && [a[0]] + a[1..] == a;
      assert ([a[1..]] + Split(rest, sep))[1..] == Split(rest, sep);
    }
  }

  /** The first piece, and what is split after its separator. */
  lemma {:induction false} SplitJoins(b: bytes, sep: byte) returns (rest: bytes)
    requires |Split(b, sep)| >= 2
    ensures sep !in Split(b, sep)[0] && b == Split(b, sep)[0] + [sep] + rest && Split(b, sep)[1..] == Split(rest, sep)
  {
    if b[0] == sep {
      rest := b[1..];
    } else {
      rest := SplitJoins(b[1..], sep);
      assert b == [b[0]] + b[1..];
    }
  }

  lemma {:induction false} SplitSingle(b: bytes, sep: byte)
    requires |Split(b, sep)| == 1
    ensures Split(b, sep) == [b] && sep !in b
  {
    if b != [] {
      SplitSingle(b[1..], sep);
      assert [b[0]] + b[1..] == b;
    }
  }

  /** A list of pieces, each followed by the separator, or nothing. */
  predicate Terminated(a: bytes, sep: byte) {
    a == [] || a[|a| - 1] == sep
  }

  /** The separator and anything after it, or nothing. */
  predicate Continued(t: bytes, sep: byte) {
    t == [] || t[0] == sep
  }

  lemma Regroup(a: bytes, b: bytes, c: bytes, d: bytes)
    ensures a + (b + c + d) == a + b + c + d
  {
  }

  lemma {:induction false} PieceStands(b: bytes, sep: byte, x: bytes) returns (a: bytes, t: bytes)
    requires x in Split(b, sep)
    ensures b == a + x + t && Terminated(a, sep) && Continued(t, sep)
    decreases |b|
  {
    hide Split;
    if |Split(b, sep)| == 1 {
      SplitSingle(b, sep);
      a, t := [], [];
    } else {
      var rest := SplitJoins(b, sep);
      var first := Split(b, sep)[0];
      if x == first {
        a, t := [], [sep] + rest;
      } else {
        var inner;
        inner, t := PieceStands(rest, sep, x);
        a := first + [sep] + inner;
        Regroup(first + [sep], inner, x, t);
      }
    }
  }

  lemma {:induction false} StandingPiece(a: bytes, x: bytes, t: bytes, sep: byte)
    requires sep !in x && Terminated(a, sep) && Continued(t, sep)
    ensures x in Split(a + x + t, sep)
    decreases |a|
  {
    hide Split;
    if a == [] {
      if t == [] {
        assert a + x + t == x;
        SplitWhole(x, sep);
      } else {
        assert a + x + t == x + [sep] + t[1..];
        SplitHead(x, sep, t[1..]);
      }
    } else {
      var k := FirstAt(a, sep);
      var rest := a[k + 1..];
      assert a + x + t == a[..k] + [sep] + (rest + x + t);
      SplitHead(a[..k], sep, rest + x + t);
      StandingPiece(rest, x, t, sep);
    }
  }

  lemma {:induction false} FirstAt(a: bytes, sep: byte) returns (k: nat)
    requires sep in a
    ensures k < |a| && a[k] == sep && sep !in a[..k]
  {
    if a[0] == sep {
      k := 0;
    } else {
      k := FirstAt(a[1..], sep);
      assert a[..k + 1] == [a[0]] + a[1..][..k];
      k := k + 1;
    }
  }
}
