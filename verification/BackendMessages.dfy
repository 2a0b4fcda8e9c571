/** Backend messages the proxy builds and reads (backend.rs): errors and parameter status. */
module BackendMessages {
  import opened Wrappers
  import opened Bytes
  import opened Frames
  import opened SqlStates

  const ERROR_RESPONSE: byte := 69
  const PARAMETER_STATUS: byte := 83
  const SEVERITY_FIELD: byte := 83
  const SQLSTATE_FIELD: byte := 67
  const MESSAGE_FIELD: byte := 77
  const ERROR: bytes := [69, 82, 82, 79, 82]

  // ------------------------------------------------------------ error responses

  /** One field of an error: its kind and its text. */
  datatype Field = Field(kind: byte, text: bytes)

  function FieldBytes(fields: seq<Field>): bytes {
    if fields == [] then [] else [fields[0].kind] + CStr(fields[0].text) + FieldBytes(fields[1..])
  }

  function ErrorFields(sqlstate: bytes, message: bytes): seq<Field> {
    [Field(SEVERITY_FIELD, ERROR), Field(SQLSTATE_FIELD, sqlstate), Field(MESSAGE_FIELD, message)]
  }

  /** `build_error_response`. */
  function BuildErrorResponse(sqlstate: bytes, message: bytes): bytes {
    EncodeFrame(Frame(ERROR_RESPONSE, FieldBytes(ErrorFields(sqlstate, message)) + [0]))
  }

  function SqlStateFrom(payload: bytes, offset: nat): Option<SqlState>
    decreases |payload| - offset
  {
    if offset >= |payload| || payload[offset] == 0 then None
    else
      match FindNul(payload, offset + 1)
      case None => None
      case Some(end) =>
        var text := payload[offset + 1..end];
        if !IsUtf8(text) then None
        else if payload[offset] == SQLSTATE_FIELD then ParseCode(text)
        else SqlStateFrom(payload, end + 1)
  }

  /** `BackendFrame::sqlstate`. */
  method FindSqlState(f: Frame) returns (r: Option<SqlState>)
    ensures r == if f.tag == ERROR_RESPONSE then SqlStateFrom(f.payload, 0) else None
  {
    hide IsUtf8, ParseCode, FindNul;
    if f.tag != ERROR_RESPONSE {
      return None;
    }
    var offset := 0;
    while offset < |f.payload|
      invariant SqlStateFrom(f.payload, 0) == SqlStateFrom(f.payload, offset)
    {
      var kind := f.payload[offset];
      offset := offset + 1;
      if kind == 0 {
        return None;
      }
      var end := FindNul(f.payload, offset);
      if end.None? || !IsUtf8(f.payload[offset..end.value]) {
        return None;
      }
      if kind == SQLSTATE_FIELD {
        return ParseCode(f.payload[offset..end.value]);
      }
      offset := end.value + 1;
    }
    r := None;
  }

  predicate GoodField(f: Field) {
    f.kind != 0 && NoNul(f.text) && IsUtf8(f.text)
  }

  /** What the first SQLSTATE field of an error says. */
  function FirstSqlState(fields: seq<Field>): Option<SqlState> {
    if fields == [] then None
    else if fields[0].kind == SQLSTATE_FIELD then ParseCode(fields[0].text)
    else FirstSqlState(fields[1..])
  }

  predicate HasSqlState(fields: seq<Field>) {
    fields != [] && (fields[0].kind == SQLSTATE_FIELD || HasSqlState(fields[1..]))
  }

  /**
   Reading an error of any well-formed fields yields exactly what its first SQLSTATE field says; what follows
   that field, well-formed or not, is not looked at.
   */
  lemma {:induction false} SqlStateOfFields(payload: bytes, at: nat, fields: seq<Field>)
    requires forall i :: 0 <= i < |fields| ==> GoodField(fields[i])
    requires var end := at + |FieldBytes(fields)|;
             && end <= |payload| && payload[at..end] == FieldBytes(fields)
             && (HasSqlState(fields) || (end < |payload| && payload[end] == 0))
    ensures SqlStateFrom(payload, at) == FirstSqlState(fields)
    decreases |fields|
  {
    hide ParseCode, GoodField, CStr;
    if fields != [] {
      var f, rest := fields[0], FieldBytes(fields[1..]);
      ReadField(payload, at, f, rest);
      if f.kind != SQLSTATE_FIELD {
        hide SqlStateFrom;
        SqlStateOfFields(payload, at + |f.text| + 2, fields[1..]);
      }
    }
  }

  /** One round of the loop, on a field that stands at `at` with `rest` after it. */
  lemma ReadField(payload: bytes, at: nat, f: Field, rest: bytes)
    requires GoodField(f)
    requires var written := [f.kind] + CStr(f.text) + rest;
             at + |written| <= |payload| && payload[at..at + |written|] == written
    ensures var next := at + |f.text| + 2;
            && SqlStateFrom(payload, at) == (if f.kind == SQLSTATE_FIELD then ParseCode(f.text) else SqlStateFrom(payload, next))
            && |[f.kind] + CStr(f.text) + rest| == |f.text| + 2 + |rest| && payload[next..next + |rest|] == rest
  {
    hide IsUtf8, ParseCode, FindNul;
    FieldAt(payload, at, f, rest);
    FindNulAt(payload, at + 1, at + 1 + |f.text|);
  }

  lemma FieldAt(payload: bytes, at: nat, f: Field, rest: bytes)
    requires var written := [f.kind] + CStr(f.text) + rest;
             at + |written| <= |payload| && payload[at..at + |written|] == written
    ensures var end := at + 1 + |f.text|;
            && payload[at] == f.kind && payload[at + 1..end] == f.text && payload[end] == 0
            && payload[end + 1..end + 1 + |rest|] == rest
  {
    Cut(payload, at, [f.kind] + CStr(f.text), rest);
    Cut(payload, at, [f.kind], CStr(f.text));
    Cut(payload, at + 1, f.text, [0]);
    assert payload[at] == payload[at..at + 1][0];
    assert payload[at + 1 + |f.text|] == payload[at + 1 + |f.text|..at + 2 + |f.text|][0];
  }

  lemma {:induction false} FieldBytesConcat(a: seq<Field>, b: seq<Field>)
    ensures FieldBytes(a + b) == FieldBytes(a) + FieldBytes(b)
  {
    if a == [] {
      assert a + b == b;
    } else {
      FieldBytesConcat(a[1..], b);
      assert (a + b)[1..] == a[1..] + b && (a + b)[0] == a[0];
      var head, x, y := [a[0].kind] + CStr(a[0].text), FieldBytes(a[1..]), FieldBytes(b);
      assert head + (x + y) == head + x + y;
    }
  }

  lemma TwoFields(a: Field, b: Field)
    requires a.kind != SQLSTATE_FIELD && b.kind == SQLSTATE_FIELD
    ensures HasSqlState([a, b]) && FirstSqlState([a, b]) == ParseCode(b.text)
  {
    hide ParseCode;
    assert [a, b][1..] == [b];
    assert HasSqlState([b]) && FirstSqlState([b]) == ParseCode(b.text);
  }

  /**
   An error built with any NUL-free code, in the stream and whatever its message, reads back as that code is known:
   a code the enumeration lacks, such as 28P01 or 57P01, reads back as nothing.
   */
  lemma ErrorReadsBack(code: bytes, message: bytes, rest: bytes)
    requires NoNul(code) && IsUtf8(code) && |FieldBytes(ErrorFields(code, message))| + 5 < 0x8000_0000
    ensures match NextFrame(BuildErrorResponse(code, message) + rest)
            case Whole(f, tail) => f.tag == ERROR_RESPONSE && SqlStateFrom(f.payload, 0) == ParseCode(code) && tail == rest
            case _ => false
  {
    hide IsUtf8, ParseCode, FindNul, FieldBytes, NextFrame, EncodeFrame;
    var head := [Field(SEVERITY_FIELD, ERROR), Field(SQLSTATE_FIELD, code)];
    var tail := [Field(MESSAGE_FIELD, message)];
    var payload := FieldBytes(ErrorFields(code, message)) + [0];
    EncodedIsWhole(Frame(ERROR_RESPONSE, payload), rest);
    AsciiIsUtf8(ERROR);
    TwoFields(head[0], head[1]);
    assert ErrorFields(code, message) == head + tail;
    FieldBytesConcat(head, tail);
    assert payload[0..|FieldBytes(head)|] == FieldBytes(head);
    SqlStateOfFields(payload, 0, head);
  }

  /** What it is on the wire: severity, code and message, in that order, each with its kind and a NUL. */
  lemma ErrorLayout(code: bytes, message: bytes)
    ensures FieldBytes(ErrorFields(code, message))
         == [83] + [69, 82, 82, 79, 82, 0] + ([67] + (code + [0]) + ([77] + (message + [0])))
  {
    var severity, state, text := Field(SEVERITY_FIELD, ERROR), Field(SQLSTATE_FIELD, code), Field(MESSAGE_FIELD, message);
    assert [severity, state, text][1..] == [state, text] && [state, text][1..] == [text] && [text][1..] == [];
    assert FieldBytes([]) == [];
    assert FieldBytes([text]) == [77] + (message + [0]);
    assert FieldBytes([state, text]) == [67] + (code + [0]) + FieldBytes([text]);
  }

  /** It reads back as a state if and only if it was built with that state's code. */
  lemma ErrorReadsBackIff(code: bytes, message: bytes, s: SqlState)
    requires NoNul(code) && IsUtf8(code) && |FieldBytes(ErrorFields(code, message))| + 5 < 0x8000_0000
    ensures match NextFrame(BuildErrorResponse(code, message))
            case Whole(f, _) => SqlStateFrom(f.payload, 0) == Some(s) <==> code == Code(s)
            case _ => false
  {
    hide IsUtf8, ParseCode, NextFrame, EncodeFrame, FieldBytes, Code;
    ErrorReadsBack(code, message, []);
    assert BuildErrorResponse(code, message) + [] == BuildErrorResponse(code, message);
    ParseCodeIff(code, s);
  }

  /** The authentication failure code 28P01 is one the proxy builds and does not read back. */
  lemma AuthFailureNotReadBack(message: bytes)
    requires |FieldBytes(ErrorFields([50, 56, 80, 48, 49], message))| + 5 < 0x8000_0000
    ensures match NextFrame(BuildErrorResponse([50, 56, 80, 48, 49], message))
            case Whole(f, _) => SqlStateFrom(f.payload, 0) == None
            case _ => false
  {
    hide NextFrame, EncodeFrame, FieldBytes;
    var code := [50, 56, 80, 48, 49];
    AsciiIsUtf8(code);
    ErrorReadsBack(code, message, []);
    assert BuildErrorResponse(code, message) + [] == BuildErrorResponse(code, message);
    assert ParseCode(code) == None by {
      UnknownCode(code);
    }
  }

  lemma UnknownCode(code: bytes)
    requires |code| == 5 && code[0] == 50 && code[1] == 56
    ensures ParseCode(code) == None
  {
    hide Code, ParseCode;
    forall s: SqlState
      ensures ParseCode(code) != Some(s)
    {
      ParseCodeIff(code, s);
      NoClass28(s);
    }
  }

  /** No state of the enumeration is of class 28, failed authorization. */
  lemma NoClass28(s: SqlState)
    ensures Code(s)[0] != 50 || Code(s)[1] != 56
  {
  }

  // ------------------------------------------------------------ parameter status

  datatype Status = Status(name: bytes, value: bytes)

  function ParseParameterStatus(payload: bytes): Option<Status> {
    var parts := Split(payload, 0);
    if |parts| != 3 || parts[0] == [] || parts[2] != [] then None
    else if IsUtf8(parts[0]) && IsUtf8(parts[1]) then Some(Status(parts[0], parts[1]))
    else None
  }

  function EncodeParameterStatus(s: Status): bytes {
    EncodeFrame(Frame(PARAMETER_STATUS, CStr(s.name) + CStr(s.value)))
  }

  predicate GoodStatus(s: Status) {
    s.name != [] && NoNul(s.name) && NoNul(s.value) && IsUtf8(s.name) && IsUtf8(s.value)
  }

  /** A payload parses to a status if and only if it is that status written out, with a name and NUL-free UTF-8 strings. */
  lemma ParameterStatusIff(payload: bytes, s: Status)
    ensures ParseParameterStatus(payload) == Some(s) <==> payload == CStr(s.name) + CStr(s.value) && GoodStatus(s)
  {
    hide IsUtf8, Split;
    var name, value := s.name, s.value;
    if payload == CStr(name) + CStr(value) && GoodStatus(s) {
      assert payload == name + [0] + CStr(value) && CStr(value) == value + [0] + [];
      SplitHead(name, 0, CStr(value));
      SplitHead(value, 0, []);
      SplitWhole([], 0);
      assert Split(payload, 0) == [name, value, []];
    }
    if ParseParameterStatus(payload) == Some(s) {
      var rest := SplitJoins(payload, 0);
      assert Split(rest, 0) == [value, []];
      var tail := SplitJoins(rest, 0);
      assert Split(tail, 0) == [[]];
      SplitSingle(tail, 0);
    }
  }

  /** Encoding a status, then framing and parsing it, gives it back if and only if it is well formed. */
  lemma StatusReadsBackIff(s: Status, rest: bytes)
    requires |s.name| + |s.value| + 6 < 0x8000_0000
    ensures match NextFrame(EncodeParameterStatus(s) + rest)
            case Whole(f, tail) => tail == rest && (ParseParameterStatus(f.payload) == Some(s) <==> GoodStatus(s))
            case _ => false
  {
    hide ParseParameterStatus, NextFrame, EncodeFrame, IsUtf8;
    EncodedIsWhole(Frame(PARAMETER_STATUS, CStr(s.name) + CStr(s.value)), rest);
    ParameterStatusIff(CStr(s.name) + CStr(s.value), s);
  }
}
