/** The first packet of a connection (startup.rs), and the packets the proxy itself writes. */
module Startup {
  import opened Wrappers
  import opened Bytes

  const SSL_REQUEST_CODE: i32 := 80877103
  const CANCEL_REQUEST_CODE: i32 := 80877102
  const GSSENC_REQUEST_CODE: i32 := 80877104
  const MIN_STARTUP_LEN: i32 := 8

  datatype Parameter = Parameter(key: bytes, value: bytes)

  datatype Packet =
    | StartupPacket(major: i16, minor: i16, parameters: seq<Parameter>)
    | SslRequest
    | GssEncRequest
    | CancelRequest(processId: i32, secretKey: i32)

  // ------------------------------------------------------------------ parsing

  /** A parameter and the offset past it. */
  datatype Read = Read(parameter: Parameter, next: nat)

  /** One key and value. */
  function ReadParameter(b: bytes, start: nat): (r: Result<Read, WireError>)
    requires start <= |b|
    ensures r.Ok? ==> start < r.value.next <= |b|
  {
    match FindNul(b, start)
    case None => Err(UnterminatedStartupParameters)
    case Some(keyEnd) =>
      if !IsUtf8(b[start..keyEnd]) then Err(InvalidUtf8)
      else if keyEnd + 1 >= |b| then Err(MissingStartupParameterValue(b[start..keyEnd]))
      else
        match FindNul(b, keyEnd + 1)
        case None => Err(UnterminatedStartupParameters)
        case Some(valueEnd) =>
          if !IsUtf8(b[keyEnd + 1..valueEnd]) then Err(InvalidUtf8)
          else Ok(Read(Parameter(b[start..keyEnd], b[keyEnd + 1..valueEnd]), valueEnd + 1))
  }

  /** Prefixing parameters already read to what the rest yields. */
  function Prepend(parameters: seq<Parameter>, rest: Result<seq<Parameter>, WireError>): Result<seq<Parameter>, WireError> {
    match rest
    case Err(e) => Err(e)
    case Ok(more) => Ok(parameters + more)
  }

  /** The parameters from `start` on, up to an empty key or the end. */
  function ParseFrom(b: bytes, start: nat): Result<seq<Parameter>, WireError>
    requires start <= |b|
    decreases |b| - start
  {
    if start == |b| || b[start] == 0 then Ok([])
    else
      match ReadParameter(b, start)
      case Err(e) => Err(e)
      case Ok(read) => Prepend([read.parameter], ParseFrom(b, read.next))
  }

  function ParseParameters(b: bytes): Result<seq<Parameter>, WireError> {
    if b == [] || b[|b| - 1] != 0 then Err(UnterminatedStartupParameters) else ParseFrom(b, 0)
  }

  lemma PrependTwice(parameters: seq<Parameter>, p: Parameter, rest: Result<seq<Parameter>, WireError>)
    ensures Prepend(parameters, Prepend([p], rest)) == Prepend(parameters + [p], rest)
  {
    assert rest.Ok? ==> parameters + ([p] + rest.value) == parameters + [p] + rest.value;
  }

  /** One round of the loop: what the parameters read so far and the rest amount to. */
  lemma ParseRound(b: bytes, start: nat, parameters: seq<Parameter>)
    requires start < |b| && b[start] != 0
    ensures match ReadParameter(b, start)
            case Err(e) => Prepend(parameters, ParseFrom(b, start)) == Err(e)
            case Ok(read) => Prepend(parameters, ParseFrom(b, start)) == Prepend(parameters + [read.parameter], ParseFrom(b, read.next))
  {
    hide ReadParameter;
    if ReadParameter(b, start).Ok? {
      PrependTwice(parameters, ReadParameter(b, start).value.parameter, ParseFrom(b, ReadParameter(b, start).value.next));
    }
  }

  /** The body of the loop, on one parameter. */
  method ReadOne(b: bytes, start: nat) returns (r: Result<Read, WireError>)
    requires start <= |b|
    ensures r == ReadParameter(b, start)
  {
    hide IsUtf8, FindNul;
    var keyEnd := FindNul(b, start);
    if keyEnd.None? {
      return Err(UnterminatedStartupParameters);
    }
    var key := b[start..keyEnd.value];
    if !IsUtf8(key) {
      return Err(InvalidUtf8);
    }
    var valueStart := keyEnd.value + 1;
    if valueStart >= |b| {
      return Err(MissingStartupParameterValue(key));
    }
    var valueEnd := FindNul(b, valueStart);
    if valueEnd.None? {
      return Err(UnterminatedStartupParameters);
    }
    var value := b[valueStart..valueEnd.value];
    if !IsUtf8(value) {
      return Err(InvalidUtf8);
    }
    r := Ok(Read(Parameter(key, value), valueEnd.value + 1));
  }

  /** `parse_parameters`. */
  method ParseParameterList(b: bytes) returns (r: Result<seq<Parameter>, WireError>)
    ensures r == ParseParameters(b)
  {
    hide ReadParameter;
    if b == [] || b[|b| - 1] != 0 {
      return Err(UnterminatedStartupParameters);
    }
    var parameters: seq<Parameter> := [];
    var start := 0;
    assert ParseFrom(b, 0).Ok? ==> [] + ParseFrom(b, 0).value == ParseFrom(b, 0).value;
    while start < |b|
      invariant start <= |b|
      invariant ParseFrom(b, 0) == Prepend(parameters, ParseFrom(b, start))
    {
      if b[start] == 0 {
        break;
      }
      ParseRound(b, start, parameters);
      var read :- ReadOne(b, start);
      parameters := parameters + [read.parameter];
      start := read.next;
    }
    assert parameters + [] == parameters;
    r := Ok(parameters);
  }

  /** `((protocol >> 16) & 0xffff) as i16`. */
  function Major(protocol: i32): i16 {
    AsI16(protocol / 0x1_0000)
  }

  /** `(protocol & 0xffff) as i16`. */
  function Minor(protocol: i32): i16 {
    AsI16(protocol)
  }

  function ParseStartupPacket(packet: bytes): Result<Packet, WireError> {
    if |packet| < 4 then Err(IncompleteStartupPacket)
    else
      var length: i32 := GetI32(packet, 0);
      if length < MIN_STARTUP_LEN then Err(InvalidStartupLength(length))
      else if |packet| != length then Err(IncompleteStartupPacket)
      else
        var code: i32 := GetI32(packet, 4);
        if code == SSL_REQUEST_CODE then Ok(SslRequest)
        else if code == GSSENC_REQUEST_CODE then Ok(GssEncRequest)
        else if code == CANCEL_REQUEST_CODE then
          if |packet| != 16 then Err(InvalidStartupLength(length))
          else Ok(CancelRequest(GetI32(packet, 8), GetI32(packet, 12)))
        else
          match ParseParameters(packet[8..])
          case Err(e) => Err(e)
          case Ok(parameters) => Ok(StartupPacket(Major(code), Minor(code), parameters))
  }

  // ----------------------------------------------------------------- encoding

  /** Keys and values as written one after the other. */
  function Body(parameters: seq<Parameter>): bytes {
    if parameters == [] then []
    else CStr(parameters[0].key) + CStr(parameters[0].value) + Body(parameters[1..])
  }

  /** A length-prefixed packet, as `auth_query_startup_packet` builds it. */
  function EncodeStartup(protocol: i32, parameters: seq<Parameter>): bytes {
    var body := PutI32(protocol) + Body(parameters) + [0];
    PutI32(AsI32(|body| + 4)) + body
  }

  function EncodeCancelRequest(processId: i32, secretKey: i32): bytes {
    PutI32(16) + PutI32(CANCEL_REQUEST_CODE) + PutI32(processId) + PutI32(secretKey)
  }

  /** A parameter that can be told from the list around it. */
  predicate Good(p: Parameter) {
    p.key != [] && NoNul(p.key) && NoNul(p.value) && IsUtf8(p.key) && IsUtf8(p.value)
  }

  predicate AllGood(parameters: seq<Parameter>) {
    forall i :: 0 <= i < |parameters| ==> Good(parameters[i])
  }

  /** The first parameter of a list stands at `at`, each of its strings followed by a NUL. */
  predicate HeadAt(b: bytes, at: nat, p: Parameter) {
    var keyEnd := at + |p.key|;
    var valueEnd := keyEnd + 1 + |p.value|;
    && valueEnd < |b| && b[at..keyEnd] == p.key && b[keyEnd] == 0
    && b[keyEnd + 1..valueEnd] == p.value && b[valueEnd] == 0
  }

  function Past(at: nat, p: Parameter): nat {
    at + |p.key| + |p.value| + 2
  }

  /** The parameters stand at `at`, followed by the end or by a NUL. */
  predicate StandsAt(b: bytes, at: nat, parameters: seq<Parameter>)
    decreases |parameters|
  {
    if parameters == [] then at == |b| || (at < |b| && b[at] == 0)
    else HeadAt(b, at, parameters[0]) && StandsAt(b, Past(at, parameters[0]), parameters[1..])
  }

  lemma WrittenHead(b: bytes, at: nat, p: Parameter)
    requires var written := CStr(p.key) + CStr(p.value);
             at + |written| <= |b| && b[at..at + |written|] == written
    ensures HeadAt(b, at, p)
  {
    Cut(b, at, CStr(p.key), CStr(p.value));
    Cut(b, at, p.key, [0]);
    Cut(b, at + |p.key| + 1, p.value, [0]);
  }

  lemma {:induction false} BodyStands(b: bytes, at: nat, parameters: seq<Parameter>)
    requires var end := at + |Body(parameters)|;
             end <= |b| && b[at..end] == Body(parameters) && (end == |b| || b[end] == 0)
    ensures StandsAt(b, at, parameters)
    decreases |parameters|
  {
    if parameters != [] {
      var key, value, rest := parameters[0].key, parameters[0].value, Body(parameters[1..]);
      Cut(b, at, CStr(key) + CStr(value), rest);
      WrittenHead(b, at, parameters[0]);
      BodyStands(b, Past(at, parameters[0]), parameters[1..]);
    }
  }

  /** Where the two strings of a parameter end. */
  lemma HeadEnds(b: bytes, at: nat, p: Parameter)
    requires Good(p) && HeadAt(b, at, p)
    ensures at < |b| && b[at] != 0
    ensures var keyEnd := at + |p.key|; var valueEnd := keyEnd + 1 + |p.value|;
            && keyEnd < valueEnd < |b| && b[at..keyEnd] == p.key && b[keyEnd + 1..valueEnd] == p.value
            && FindNul(b, at) == Some(keyEnd) && FindNul(b, keyEnd + 1) == Some(valueEnd) && Past(at, p) == valueEnd + 1
  {
    hide IsUtf8, FindNul;
    var keyEnd := at + |p.key|;
    assert b[at] != 0 by { assert b[at] == b[at..keyEnd][0]; }
    FindNulAt(b, at, keyEnd);
    FindNulAt(b, keyEnd + 1, keyEnd + 1 + |p.value|);
  }

  lemma ParseHead(b: bytes, at: nat, p: Parameter)
    requires Good(p) && HeadAt(b, at, p)
    ensures ParseFrom(b, at) == Prepend([p], ParseFrom(b, Past(at, p)))
  {
    hide IsUtf8, FindNul, HeadAt, Past;
    HeadEnds(b, at, p);
  }

  lemma {:induction false} ParseStanding(b: bytes, at: nat, parameters: seq<Parameter>)
    requires at <= |b| && AllGood(parameters) && StandsAt(b, at, parameters)
    ensures ParseFrom(b, at) == Ok(parameters)
    decreases |parameters|
  {
    hide Good, IsUtf8;
    if parameters != [] {
      hide ParseFrom;
      ParseHead(b, at, parameters[0]);
      ParseStanding(b, Past(at, parameters[0]), parameters[1..]);
      assert parameters == [parameters[0]] + parameters[1..];
    }
  }

  lemma ParsedHead(b: bytes, at: nat) returns (p: Parameter)
    requires at < |b| && b[at] != 0 && ParseFrom(b, at).Ok?
    ensures Good(p) && HeadAt(b, at, p) && ParseFrom(b, at) == Prepend([p], ParseFrom(b, Past(at, p)))
  {
    hide IsUtf8, FindNul;
    assert ReadParameter(b, at).Ok? && FindNul(b, at).Some? && FindNul(b, at).value != at;
    var keyEnd := FindNul(b, at).value;
    var valueEnd := FindNul(b, keyEnd + 1).value;
    p := Parameter(b[at..keyEnd], b[keyEnd + 1..valueEnd]);
    assert Past(at, p) == valueEnd + 1;
  }

  lemma {:induction false} ParsedStands(b: bytes, at: nat)
    requires at <= |b| && ParseFrom(b, at).Ok?
    ensures AllGood(ParseFrom(b, at).value) && StandsAt(b, at, ParseFrom(b, at).value)
    decreases |b| - at
  {
    hide Good, IsUtf8;
    if at < |b| && b[at] != 0 {
      var p := ParsedHead(b, at);
      ParsedStands(b, Past(at, p));
      var rest := ParseFrom(b, Past(at, p)).value;
      assert ([p] + rest)[1..] == rest;
    }
  }

  /**
   A block of parameter bytes parses to a list if and only if it ends in NUL and starts with that list written
   out, all its keys nonempty and its strings NUL-free UTF-8, followed by the end or an empty key.
   */
  lemma ParametersIff(b: bytes, parameters: seq<Parameter>)
    ensures ParseParameters(b) == Ok(parameters)
       <==> b != [] && b[|b| - 1] == 0 && AllGood(parameters) && StandsAt(b, 0, parameters)
  {
    hide IsUtf8, ParseFrom, StandsAt;
    if b != [] && b[|b| - 1] == 0 {
      if ParseFrom(b, 0).Ok? {
        ParsedStands(b, 0);
      }
      if AllGood(parameters) && StandsAt(b, 0, parameters) {
        ParseStanding(b, 0, parameters);
      }
    }
  }

  predicate Special(code: i32) {
    code == SSL_REQUEST_CODE || code == CANCEL_REQUEST_CODE || code == GSSENC_REQUEST_CODE
  }

  lemma StartupHeader(protocol: i32, parameters: seq<Parameter>)
    requires |Body(parameters)| + 9 < 0x8000_0000
    ensures var packet := EncodeStartup(protocol, parameters);
            && |packet| == |Body(parameters)| + 9 && GetI32(packet, 0) == |packet| && GetI32(packet, 4) == protocol
            && packet[8..] == Body(parameters) + [0]
  {
    hide GetI32, PutI32, Body;
    var packet := EncodeStartup(protocol, parameters);
    assert packet[0..4] == PutI32(AsI32(|Body(parameters)| + 9));
    assert packet[4..8] == PutI32(protocol);
    I32RoundTrip(packet, 0, AsI32(|Body(parameters)| + 9));
    I32RoundTrip(packet, 4, protocol);
  }

  /** Parsing inverts the parameter encoder if and only if every key is nonempty and every string is NUL-free UTF-8. */
  lemma ParseInvertsStartup(protocol: i32, parameters: seq<Parameter>)
    requires !Special(protocol) && |Body(parameters)| + 9 < 0x8000_0000
    ensures ParseStartupPacket(EncodeStartup(protocol, parameters)) == Ok(StartupPacket(Major(protocol), Minor(protocol), parameters))
       <==> AllGood(parameters)
  {
    hide GetI32, PutI32, Body, ParseParameters, Good, EncodeStartup;
    StartupHeader(protocol, parameters);
    var packet := EncodeStartup(protocol, parameters);
    var block := packet[8..];
    ParametersIff(block, parameters);
    assert block[0..|Body(parameters)|] == Body(parameters);
    BodyStands(block, 0, parameters);
  }

  /** The version halves determine the protocol code. */
  lemma VersionDetermined(p: i32, q: i32)
    requires Major(p) == Major(q) && Minor(p) == Minor(q)
    ensures p == q
  {
    assert p / 0x1_0000 == q / 0x1_0000;
    SameLowHalf(p, q);
  }

  lemma SameLowHalf(p: int, q: int)
    requires p / 0x1_0000 == q / 0x1_0000 && (p + 0x8000) % 0x1_0000 == (q + 0x8000) % 0x1_0000
    ensures p == q
  {
    var high, x, y := p / 0x1_0000, (p + 0x8000) / 0x1_0000, (q + 0x8000) / 0x1_0000;
    var low := (p + 0x8000) % 0x1_0000;
    assert p + 0x8000 == 0x1_0000 * x + low && q + 0x8000 == 0x1_0000 * y + low;
    assert 0x1_0000 * high <= p < 0x1_0000 * high + 0x1_0000 && 0x1_0000 * high <= q < 0x1_0000 * high + 0x1_0000;
  }

  /** Every cancel request the proxy writes parses back to its process id and secret key. */
  lemma ParseInvertsCancel(processId: i32, secretKey: i32)
    ensures ParseStartupPacket(EncodeCancelRequest(processId, secretKey)) == Ok(CancelRequest(processId, secretKey))
  {
    hide GetI32, PutI32, ParseParameters;
    var packet := EncodeCancelRequest(processId, secretKey);
    assert packet[0..4] == PutI32(16) && packet[4..8] == PutI32(CANCEL_REQUEST_CODE);
    assert packet[8..12] == PutI32(processId) && packet[12..16] == PutI32(secretKey);
    I32RoundTrip(packet, 0, 16);
    I32RoundTrip(packet, 4, CANCEL_REQUEST_CODE);
    I32RoundTrip(packet, 8, processId);
    I32RoundTrip(packet, 12, secretKey);
  }

  /** The major version is the upper half of the protocol code and the minor one the lower, read as signed. */
  lemma VersionHalves(protocol: i32)
    ensures var minor := if Minor(protocol) < 0 then Minor(protocol) + 0x1_0000 else Minor(protocol);
            Major(protocol) * 0x1_0000 + minor == protocol && 0 <= minor < 0x1_0000
  {
    var high, low := protocol / 0x1_0000, protocol % 0x1_0000;
    assert protocol == 0x1_0000 * high + low;
    assert Major(protocol) == high;
    LowHalf(high, low);
  }

  lemma LowHalf(high: int, low: nat)
    requires low < 0x1_0000
    ensures AsI16(0x1_0000 * high + low) == if low < 0x8000 then low else low - 0x1_0000
  {
    var n := 0x1_0000 * high + low + 0x8000;
    var carry := if low < 0x8000 then 0 else 1;
    assert n == 0x1_0000 * (high + carry) + (low + 0x8000 - 0x1_0000 * carry);
  }

  /** A packet is a cancel request if and only if it is the one the proxy would write for that process and secret. */
  lemma CancelIff(packet: bytes, processId: i32, secretKey: i32)
    ensures ParseStartupPacket(packet) == Ok(CancelRequest(processId, secretKey)) <==> packet == EncodeCancelRequest(processId, secretKey)
  {
    hide ParseParameters;
    if ParseStartupPacket(packet) == Ok(CancelRequest(processId, secretKey)) {
      hide PutI32;
      PutGetI32(packet, 0);
      PutGetI32(packet, 4);
      PutGetI32(packet, 8);
      PutGetI32(packet, 12);
      assert packet == packet[0..4] + packet[4..8] + packet[8..12] + packet[12..16];
    } else {
      ParseInvertsCancel(processId, secretKey);
    }
  }

  /** An encryption request is told by its code alone, whatever follows it in the packet. */
  lemma EncryptionRequestIff(packet: bytes)
    requires |packet| >= 8 && GetI32(packet, 0) == |packet|
    ensures ParseStartupPacket(packet) == Ok(SslRequest) <==> GetI32(packet, 4) == 80877103
    ensures ParseStartupPacket(packet) == Ok(GssEncRequest) <==> GetI32(packet, 4) == 80877104
  {
    hide ParseParameters, GetI32;
  }
}
