/**
 The extended-query messages: parsing (message.rs) and the statement-name rewriters (rewrite.rs).
 Strings are their UTF-8 bytes.
 */
module Messages {
  import opened Wrappers
  import opened Bytes
  import opened Frames

  const PARSE: byte := 80     // 'P'
  const BIND: byte := 66      // 'B'
  const DESCRIBE: byte := 68  // 'D'
  const CLOSE: byte := 67     // 'C'

  const STATEMENT_KIND: byte := 83  // 'S'
  const PORTAL_KIND: byte := 80     // 'P'

  datatype Statement = Statement(query: bytes, oids: seq<i32>)

  datatype ParseMessage = ParseMessage(name: bytes, statement: Statement)

  datatype BindMessage = BindMessage(portal: bytes, name: bytes, trailing: bytes)

  datatype Target = StatementTarget(name: bytes) | PortalTarget(name: bytes)

  // ---------------------------------------------------------------- parsing

  /** The query and parameter OIDs of a Parse payload, from the offset just past the statement name. */
  function ReadStatement(p: bytes, at: nat): (r: Result<Statement, WireError>) {
    var query :- ReadCStr(p, at);
    if |p| < query.next + 2 then Err(IncompleteFrame)
    else
      var count: int := GetI16(p, query.next);
      var first := query.next + 2;
      if count < 0 || |p| < first + count * 4 then Err(IncompleteFrame)
      else Ok(Statement(query.text, seq(count, i requires 0 <= i < count => GetI32(p, first + i * 4))))
  }

  /** `parse_parse_message`. */
  function ParseParse(f: Frame): (r: Result<Option<ParseMessage>, WireError>)
    ensures r.Ok? && r.value.Some? ==>
              var m := r.value.value;
              NoNul(m.name) && IsUtf8(m.name) && NoNul(m.statement.query) && IsUtf8(m.statement.query)
              && |m.statement.oids| < 0x8000
  {
    if f.tag != PARSE then Ok(None)
    else
      var name :- ReadCStr(f.payload, 0);
      var statement :- ReadStatement(f.payload, name.next);
      Ok(Some(ParseMessage(name.text, statement)))
  }

  /** The leading strings of a Bind payload and the bytes after them. */
  function ReadBind(p: bytes): (r: Result<BindMessage, WireError>) {
    var portal :- ReadCStr(p, 0);
    var name :- ReadCStr(p, portal.next);
    Ok(BindMessage(portal.text, name.text, p[name.next..]))
  }

  /** `parse_bind_statement_name`. */
  function ParseBindName(f: Frame): (r: Result<Option<bytes>, WireError>) {
    if f.tag != BIND then Ok(None)
    else
      var m :- ReadBind(f.payload);
      Ok(Some(m.name))
  }

  /** `parse_describe_target` with tag DESCRIBE, `parse_close_target` with tag CLOSE. */
  function ParseTarget(f: Frame, tag: byte): (r: Result<Option<Target>, WireError>) {
    if f.tag != tag then Ok(None)
    else if f.payload == [] then Err(IncompleteFrame)
    else
      var name :- ReadCStr(f.payload, 1);
      if f.payload[0] == STATEMENT_KIND then Ok(Some(StatementTarget(name.text)))
      else if f.payload[0] == PORTAL_KIND then Ok(Some(PortalTarget(name.text)))
      else Ok(None)
  }

  // -------------------------------------------------------------- rewriting

  /** `rewrite_parse_statement_name`. */
  function RewriteParse(f: Frame, name: bytes): (r: Result<Frame, WireError>) {
    if f.tag != PARSE then Ok(f)
    else
      var current :- ReadCStr(f.payload, 0);
      Ok(Frame(f.tag, CStr(name) + f.payload[current.next..]))
  }

  /** `rewrite_bind_statement_name`. */
  function RewriteBind(f: Frame, name: bytes): (r: Result<Frame, WireError>) {
    if f.tag != BIND then Ok(f)
    else
      var portal :- ReadCStr(f.payload, 0);
      var current :- ReadCStr(f.payload, portal.next);
      Ok(Frame(f.tag, f.payload[..portal.next] + CStr(name) + f.payload[current.next..]))
  }

  /** `rewrite_statement_target`, behind `rewrite_describe_statement_name` and `rewrite_close_statement_name`. */
  function RewriteTarget(f: Frame, tag: byte, name: bytes): (r: Frame) {
    if f.tag != tag || f.payload == [] || f.payload[0] != STATEMENT_KIND then f
    else Frame(f.tag, [STATEMENT_KIND] + CStr(name))
  }

  /** The OIDs in network order, one after the other. */
  function PutOids(oids: seq<i32>): (b: bytes)
    ensures |b| == 4 * |oids|
  {
    if oids == [] then [] else PutOids(oids[..|oids| - 1]) + PutI32(oids[|oids| - 1])
  }

  /** The Parse frame carrying a statement under a backend name. */
  function ParseFrame(name: bytes, s: Statement): Frame {
    Frame(PARSE, CStr(name) + CStr(s.query) + PutI16(AsI16(|s.oids|)) + PutOids(s.oids))
  }

  /** `build_parse_frame`. */
  method BuildParseFrame(name: bytes, query: bytes, oids: seq<i32>) returns (f: Frame)
    ensures f == ParseFrame(name, Statement(query, oids))
  {
    var head := CStr(name) + CStr(query) + PutI16(AsI16(|oids|));
    var payload := head;
    for i := 0 to |oids|
      invariant payload == head + PutOids(oids[..i])
    {
      assert oids[..i + 1][..i] == oids[..i];
      payload := payload + PutI32(oids[i]);
    }
    assert oids[..|oids|] == oids;
    f := Frame(PARSE, payload);
  }

  // ------------------------------------------------------------- properties

  predicate Name(s: bytes) {
    IsUtf8(s) && NoNul(s)
  }

  lemma {:induction false} FindNulShift(a: bytes, i: nat, b: bytes, j: nat)
    requires i <= |a| && j <= |b| && a[i..] == b[j..]
    ensures FindNul(a, i).Some? <==> FindNul(b, j).Some?
    ensures FindNul(a, i).Some? ==> FindNul(a, i).value - i == FindNul(b, j).value - j
    decreases |a| - i
  {
    if i < |a| {
      assert a[i] == a[i..][0] && b[j] == b[j..][0];
      assert a[i + 1..] == a[i..][1..] && b[j + 1..] == b[j..][1..];
      FindNulShift(a, i + 1, b, j + 1);
    }
  }

  /** `read_cstr` looks only at the bytes from its offset on. */
  lemma ReadCStrShift(a: bytes, i: nat, b: bytes, j: nat)
    requires i <= |a| && j <= |b| && a[i..] == b[j..]
    ensures ReadCStr(a, i).Ok? <==> ReadCStr(b, j).Ok?
    ensures ReadCStr(a, i).Err? ==> ReadCStr(a, i) == ReadCStr(b, j)
    ensures ReadCStr(a, i).Ok? ==>
              ReadCStr(a, i).value.text == ReadCStr(b, j).value.text
              && ReadCStr(a, i).value.next - i == ReadCStr(b, j).value.next - j
  {
    hide IsUtf8;
    FindNulShift(a, i, b, j);
    if FindNul(a, i).Some? {
      var n := FindNul(a, i).value - i;
      assert a[i..i + n] == a[i..][..n] == b[j..][..n] == b[j..j + n];
    }
  }

  lemma ReadStatementShift(a: bytes, i: nat, b: bytes, j: nat)
    requires i <= |a| && j <= |b| && a[i..] == b[j..]
    ensures ReadStatement(a, i) == ReadStatement(b, j)
  {
    hide ReadCStr;
    ReadCStrShift(a, i, b, j);
    assert |a| - i == |a[i..]| == |b[j..]| == |b| - j;
    forall m | i <= m < |a| ensures a[m] == b[m - i + j] {
      assert a[m] == a[i..][m - i] == b[j..][m - i];
    }
    var r, s := ReadStatement(a, i), ReadStatement(b, j);
    if r.Ok? && s.Ok? {
      assert r.value.oids == s.value.oids;
    }
  }

  /** Rewriting a Parse frame changes its statement name and nothing else, errors included. */
  lemma RewriteParseThenParse(f: Frame, name: bytes)
    requires f.tag == PARSE && Name(name)
    ensures RewriteParse(f, name).Err? <==> ReadCStr(f.payload, 0).Err?
    ensures RewriteParse(f, name).Ok? ==>
              ParseParse(RewriteParse(f, name).value) ==
              match ParseParse(f)
              case Err(e) => Err(e)
              case Ok(None) => Ok(None)
              case Ok(Some(m)) => Ok(Some(ParseMessage(name, m.statement)))
    ensures RewriteParse(f, name).Ok? ==>
              RewriteParse(f, name).value.payload[|name| + 1..] == f.payload[ReadCStr(f.payload, 0).value.next..]
  {
    if RewriteParse(f, name).Ok? {
      var p := RewriteParse(f, name).value.payload;
      var k := ReadCStr(f.payload, 0).value.next;
      RewrittenHead(p, [], name, f.payload[k..]);
      ReadStatementShift(p, |name| + 1, f.payload, k);
    }
  }

  lemma RewrittenHead(p: bytes, pre: bytes, name: bytes, rest: bytes)
    requires Name(name) && p == pre + CStr(name) + rest
    ensures ReadCStr(p, |pre|) == Ok(Text(name, |pre| + |name| + 1))
    ensures p[|pre| + |name| + 1..] == rest
  {
    hide ReadCStr, IsUtf8;
    assert p[|pre|..|pre| + |name|] == name;
    ReadCStrAt(p, |pre|, name);
  }

  /** The last rewrite wins. */
  lemma RewriteParseTwice(f: Frame, first: bytes, second: bytes)
    requires Name(first) && RewriteParse(f, first).Ok?
    ensures RewriteParse(RewriteParse(f, first).value, second) == RewriteParse(f, second)
  {
    if f.tag == PARSE {
      var k := ReadCStr(f.payload, 0).value.next;
      RewrittenHead(RewriteParse(f, first).value.payload, [], first, f.payload[k..]);
    }
  }

  /** Rewriting a Bind frame changes its statement name; portal and trailing bytes stay. */
  lemma RewriteBindThenParse(f: Frame, name: bytes)
    requires f.tag == BIND && Name(name)
    ensures RewriteBind(f, name).Ok? <==> ReadBind(f.payload).Ok?
    ensures RewriteBind(f, name).Ok? ==>
              ReadBind(RewriteBind(f, name).value.payload) == Ok(ReadBind(f.payload).value.(name := name))
  {
    if RewriteBind(f, name).Ok? {
      var portal := ReadCStr(f.payload, 0).value;
      var k := ReadCStr(f.payload, portal.next).value.next;
      BindHead(RewriteBind(f, name).value.payload, f.payload, portal, name, f.payload[k..]);
    }
  }

  lemma BindHead(p: bytes, q: bytes, portal: Text, name: bytes, rest: bytes)
    requires Name(name) && ReadCStr(q, 0) == Ok(portal) && p == q[..portal.next] + CStr(name) + rest
    ensures ReadCStr(p, 0) == Ok(portal)
    ensures ReadCStr(p, portal.next) == Ok(Text(name, portal.next + |name| + 1))
    ensures p[portal.next + |name| + 1..] == rest
  {
    hide ReadCStr, IsUtf8, NoNul;
    var pre := q[..portal.next];
    assert pre == q[0..portal.next] == CStr(portal.text);
    RewrittenHead(p, pre, name, rest);
    assert p == [] + CStr(portal.text) + (CStr(name) + rest);
    RewrittenHead(p, [], portal.text, CStr(name) + rest);
  }

  lemma RewriteBindTwice(f: Frame, first: bytes, second: bytes)
    requires Name(first) && RewriteBind(f, first).Ok?
    ensures RewriteBind(RewriteBind(f, first).value, second) == RewriteBind(f, second)
  {
    if f.tag == BIND {
      var portal := ReadCStr(f.payload, 0).value;
      var k := ReadCStr(f.payload, portal.next).value.next;
      var g := RewriteBind(f, first).value;
      BindHead(g.payload, f.payload, portal, first, f.payload[k..]);
      assert g.payload[..portal.next] == f.payload[..portal.next];
    }
  }

  /** A rewritten Describe or Close of a statement names the new statement; portal targets pass unchanged. */
  lemma RewriteTargetThenParse(f: Frame, tag: byte, name: bytes)
    requires f.tag == tag && Name(name) && f.payload != []
    ensures f.payload[0] == STATEMENT_KIND ==>
              ParseTarget(RewriteTarget(f, tag, name), tag) == Ok(Some(StatementTarget(name)))
    ensures f.payload[0] != STATEMENT_KIND ==> RewriteTarget(f, tag, name) == f
  {
    if f.payload[0] == STATEMENT_KIND {
      RewrittenHead(RewriteTarget(f, tag, name).payload, [STATEMENT_KIND], name, []);
    }
  }

  lemma {:induction false} OidAt(oids: seq<i32>, i: nat)
    requires i < |oids|
    ensures PutOids(oids)[4 * i..4 * i + 4] == PutI32(oids[i])
  {
    hide PutI32;
    var n := |oids| - 1;
    if i < n {
      OidAt(oids[..n], i);
      assert PutOids(oids)[4 * i..4 * i + 4] == PutOids(oids[..n])[4 * i..4 * i + 4];
    }
  }

  // ------------------------------------------------------------- what parses

  /** A statement as `build_parse_frame` lays it out. */
  function Layout(s: Statement): bytes {
    CStr(s.query) + PutI16(AsI16(|s.oids|)) + PutOids(s.oids)
  }

  lemma SlicesJoin(p: bytes, from: nat, mid: nat, to: nat)
    requires from <= mid <= to <= |p|
    ensures p[from..mid] + p[mid..to] == p[from..to]
  {
  }

  lemma {:induction false} OidsRead(p: bytes, first: nat, oids: seq<i32>)
    requires first + 4 * |oids| <= |p| && forall i :: 0 <= i < |oids| ==> oids[i] == GetI32(p, first + i * 4)
    ensures p[first..first + 4 * |oids|] == PutOids(oids)
  {
    if oids != [] {
      var n := |oids| - 1;
      var mid := first + n * 4;
      assert PutOids(oids) == PutOids(oids[..n]) + PutI32(oids[n]);
      hide GetI32, PutI32, PutOids;
      OidsRead(p, first, oids[..n]);
      PutGetI32(p, mid);
      SlicesJoin(p, first, mid, mid + 4);
    }
  }

  /** What was read as a statement is one laid out, whatever follows it. */
  lemma StatementRead(p: bytes, at: nat)
    requires ReadStatement(p, at).Ok?
    ensures var s := ReadStatement(p, at).value;
            Name(s.query) && |s.oids| < 0x8000 && at + |Layout(s)| <= |p| && p[at..at + |Layout(s)|] == Layout(s)
  {
    hide GetI32, GetI16, PutI16, PutOids, IsUtf8;
    var s := ReadStatement(p, at).value;
    var q := ReadCStr(p, at).value.next;
    PutGetI16(p, q);
    assert AsI16(|s.oids|) == |s.oids|;
    OidsRead(p, q + 2, s.oids);
    assert p[at..q + 2 + 4 * |s.oids|] == p[at..q] + p[q..q + 2] + p[q + 2..q + 2 + 4 * |s.oids|];
  }

  lemma CStrStands(p: bytes, at: nat, text: bytes)
    requires Name(text) && at + |text| + 1 <= |p| && p[at..at + |text| + 1] == CStr(text)
    ensures ReadCStr(p, at) == Ok(Text(text, at + |text| + 1))
  {
    hide IsUtf8, ReadCStr;
    Cut(p, at, text, [0]);
    assert p[at + |text|] == p[at + |text|..at + |text| + 1][0];
    ReadCStrAt(p, at, text);
  }

  /** Where the parts of a statement laid out stand. */
  lemma StatementStands(p: bytes, at: nat, s: Statement)
    requires Name(s.query) && |s.oids| < 0x8000 && at + |Layout(s)| <= |p| && p[at..at + |Layout(s)|] == Layout(s)
    ensures var q := at + |s.query| + 1;
            && ReadCStr(p, at) == Ok(Text(s.query, q)) && q + 2 + 4 * |s.oids| <= |p|
            && GetI16(p, q) == |s.oids| && p[q + 2..q + 2 + 4 * |s.oids|] == PutOids(s.oids)
  {
    hide GetI16, PutI16, PutOids, ReadCStr, IsUtf8;
    var q, count, oids := at + |s.query| + 1, PutI16(AsI16(|s.oids|)), PutOids(s.oids);
    Cut(p, at, CStr(s.query) + count, oids);
    Cut(p, at, CStr(s.query), count);
    CStrStands(p, at, s.query);
    assert AsI16(|s.oids|) == |s.oids|;
    I16RoundTrip(p, q, AsI16(|s.oids|));
  }

  /** And one laid out is read, whatever follows it. */
  lemma StatementAt(p: bytes, at: nat, s: Statement)
    requires Name(s.query) && |s.oids| < 0x8000 && at + |Layout(s)| <= |p| && p[at..at + |Layout(s)|] == Layout(s)
    ensures ReadStatement(p, at) == Ok(s)
  {
    hide GetI32, GetI16, PutOids, ReadCStr, Layout;
    StatementStands(p, at, s);
    var first := at + |s.query| + 3;
    var r := ReadStatement(p, at);
    assert r.Ok? && r.value.query == s.query && |r.value.oids| == |s.oids|;
    forall i | 0 <= i < |s.oids|
      ensures r.value.oids[i] == s.oids[i]
    {
      OidStands(p, first, s.oids, i);
    }
    assert r.value.oids == s.oids;
  }

  lemma SliceOfSlice(p: bytes, from: nat, to: nat, i: nat, j: nat)
    requires from <= to <= |p| && i <= j <= to - from
    ensures p[from..to][i..j] == p[from + i..from + j]
  {
    var x, y := p[from..to][i..j], p[from + i..from + j];
    assert |x| == |y| && forall k :: 0 <= k < |x| ==> x[k] == p[from + i + k] == y[k];
  }

  lemma OidStands(p: bytes, first: nat, oids: seq<i32>, i: nat)
    requires first + 4 * |oids| <= |p| && p[first..first + 4 * |oids|] == PutOids(oids) && i < |oids|
    ensures GetI32(p, first + i * 4) == oids[i]
  {
    hide GetI32, PutI32, PutOids;
    OidAt(oids, i);
    var k := first + 4 * i;
    SliceOfSlice(p, first, first + 4 * |oids|, 4 * i, 4 * i + 4);
    assert p[k..k + 4] == PutI32(oids[i]) && k == first + i * 4;
    I32RoundTrip(p, k, oids[i]);
  }

  lemma WrittenParts(name: bytes, s: Statement)
    ensures ParseFrame(name, s) == Frame(PARSE, CStr(name) + Layout(s))
  {
    hide PutI16, PutOids;
    var a, b, c, d := CStr(name), CStr(s.query), PutI16(AsI16(|s.oids|)), PutOids(s.oids);
    Regroup(a, b, c, d);
  }

  /** A frame parses to a Parse message if and only if it starts with what the proxy itself would write for it. */
  lemma ParseIff(f: Frame, m: ParseMessage)
    ensures ParseParse(f) == Ok(Some(m))
       <==> && f.tag == PARSE && Name(m.name) && Name(m.statement.query) && |m.statement.oids| < 0x8000
            && ParseFrame(m.name, m.statement).payload <= f.payload
  {
    hide ReadStatement, IsUtf8, Layout, ParseFrame;
    WrittenParts(m.name, m.statement);
    var p, at, size := f.payload, |m.name| + 1, |Layout(m.statement)|;
    var written := CStr(m.name) + Layout(m.statement);
    if ParseParse(f) == Ok(Some(m)) {
      StatementRead(p, at);
      assert p[0..at] == CStr(m.name);
      assert p[..at + size] == p[0..at] + p[at..at + size];
    }
    if f.tag == PARSE && Name(m.name) && Name(m.statement.query) && |m.statement.oids| < 0x8000 && written <= p {
      hide ReadCStr;
      assert p[0..0 + |written|] == written;
      Cut(p, 0, CStr(m.name), Layout(m.statement));
      CStrStands(p, 0, m.name);
      StatementAt(p, at, m.statement);
    }
  }

  /** So parsing inverts building exactly on NUL-free names and queries with at most 32767 parameter types. */
  lemma ParseInvertsBuild(name: bytes, s: Statement)
    requires IsUtf8(name) && IsUtf8(s.query)
    ensures ParseParse(ParseFrame(name, s)) == Ok(Some(ParseMessage(name, s)))
       <==> NoNul(name) && NoNul(s.query) && |s.oids| < 0x8000
  {
    hide ParseParse, IsUtf8, PutI16, PutOids;
    ParseIff(ParseFrame(name, s), ParseMessage(name, s));
  }
}
