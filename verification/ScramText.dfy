/** The text of SCRAM messages (auth.rs; sections 5 and 5.1 of RFC 5802): escaping, attributes and the server's parsers. */
module ScramText {
  import opened Wrappers
  import opened Bytes
  import opened Names

  const COMMA: byte := 44
  const EQUALS: byte := 61
  const PLUS: byte := 43
  const MECHANISM: bytes := [83, 67, 82, 65, 77, 45, 83, 72, 65, 45, 50, 53, 54]  // "SCRAM-SHA-256"
  const GS2: bytes := [110, 44, 44]  // "n,,"
  const BIWS: bytes := [98, 105, 119, 115]  // "biws"

  // Attribute keys: n r s i c p v.
  const N: byte := 110
  const R: byte := 114
  const S: byte := 115
  const I: byte := 105
  const C: byte := 99
  const P: byte := 112
  const V: byte := 118

  // ----------------------------------------------------------------- escaping

  /** `str::replace` of one ASCII byte. */
  function Replace(s: bytes, from: byte, to: bytes): bytes {
    if s == [] then [] else (if s[0] == from then to else [s[0]]) + Replace(s[1..], from, to)
  }

  /** `scram_escape`: equals signs first, then commas. */
  function Escape(s: bytes): bytes {
    Replace(Replace(s, EQUALS, [EQUALS, 51, 68]), COMMA, [EQUALS, 50, 67])
  }

  function Unescape(s: bytes): Option<bytes> {
    if s == [] then Some([])
    else if s[0] != EQUALS then
      match Unescape(s[1..])
      case None => None
      case Some(rest) => Some([s[0]] + rest)
    else if |s| < 3 then None
    else
      match Unescape(s[3..])
      case None => None
      case Some(rest) =>
        if s[1] == 50 && s[2] == 67 then Some([COMMA] + rest)
        else if s[1] == 51 && s[2] == 68 then Some([EQUALS] + rest)
        else None
  }

  function Prepend(head: bytes, rest: Option<bytes>): Option<bytes> {
    if rest.Some? then Some(head + rest.value) else None
  }

  /** One step of unescaping, behind what was already unescaped. */
  lemma Prepends(head: bytes, s: bytes)
    requires s != []
    ensures s[0] != EQUALS ==> Prepend(head, Unescape(s)) == Prepend(head + [s[0]], Unescape(s[1..]))
    ensures |s| >= 3 && s[..3] == [EQUALS, 50, 67] ==> Prepend(head, Unescape(s)) == Prepend(head + [COMMA], Unescape(s[3..]))
    ensures |s| >= 3 && s[..3] == [EQUALS, 51, 68] ==> Prepend(head, Unescape(s)) == Prepend(head + [EQUALS], Unescape(s[3..]))
  {
    forall x: byte, rest: bytes
      ensures head + ([x] + rest) == head + [x] + rest
    {
    }
    assert |s| >= 3 ==> s[..3][0] == s[0] && s[..3][1] == s[1] && s[..3][2] == s[2];
  }

  /** `scram_unescape`. Errors carry text only and are `None` here. */
  method UnescapeText(value: bytes) returns (r: Option<bytes>)
    ensures r == Unescape(value)
  {
    var output: bytes := [];
    var i := 0;
    assert value[0..] == value;
    assert Unescape(value).Some? ==> [] + Unescape(value).value == Unescape(value).value;
    while i < |value|
      invariant i <= |value|
      invariant Unescape(value) == Prepend(output, Unescape(value[i..]))
    {
      Prepends(output, value[i..]);
      if value[i] != EQUALS {
        assert value[i..][1..] == value[i + 1..];
        output := output + [value[i]];
        i := i + 1;
      } else {
        if i + 2 >= |value| {
          return None;
        }
        assert value[i..][3..] == value[i + 3..];
        assert value[i..][..3] == [value[i], value[i + 1], value[i + 2]];
        if value[i + 1] == 50 && value[i + 2] == 67 {
          output := output + [COMMA];
        } else if value[i + 1] == 51 && value[i + 2] == 68 {
          output := output + [EQUALS];
        } else {
          return None;
        }
        i := i + 3;
      }
    }
    assert value[i..] == [];
    assert output + [] == output;
    r := Some(output);
  }

  /** What one byte of a name becomes. */
  function EscapeByte(b: byte): bytes {
    if b == EQUALS then [EQUALS, 51, 68] else if b == COMMA then [EQUALS, 50, 67] else [b]
  }

  lemma {:induction false} ReplaceConcat(a: bytes, b: bytes, from: byte, to: bytes)
    ensures Replace(a + b, from, to) == Replace(a, from, to) + Replace(b, from, to)
  {
    if a == [] {
      assert a + b == b;
    } else {
      ReplaceConcat(a[1..], b, from, to);
      assert (a + b)[1..] == a[1..] + b && (a + b)[0] == a[0];
      var head, x, y := if a[0] == from then to else [a[0]], Replace(a[1..], from, to), Replace(b, from, to);
      assert head + (x + y) == head + x + y;
    }
  }

  lemma EscapeCons(s: bytes)
    requires s != []
    ensures Escape(s) == EscapeByte(s[0]) + Escape(s[1..])
  {
    var eq := [EQUALS, 51, 68];
    var head := if s[0] == EQUALS then eq else [s[0]];
    ReplaceConcat(head, Replace(s[1..], EQUALS, eq), COMMA, [EQUALS, 50, 67]);
    assert Replace(head, COMMA, [EQUALS, 50, 67]) == EscapeByte(s[0]) by {
      var to := [EQUALS, 50, 67];
      assert Replace([], COMMA, to) == [];
      if s[0] == EQUALS {
        assert eq[1..] == [51, 68] && [51, 68][1..] == [68] && [68][1..] == [];
        assert Replace([68], COMMA, to) == [68] && Replace([51, 68], COMMA, to) == [51, 68];
      } else {
        assert head[1..] == [];
      }
    }
  }

  /** Unescaping inverts escaping, for every name, and an escaped name has no comma. */
  lemma {:induction false} UnescapeEscape(s: bytes)
    ensures Unescape(Escape(s)) == Some(s) && COMMA !in Escape(s)
  {
    if s != [] {
      hide Escape;
      EscapeCons(s);
      UnescapeEscape(s[1..]);
      var e := Escape(s);
      var n := |EscapeByte(s[0])|;
      assert e[n..] == Escape(s[1..]);
      assert s == [s[0]] + s[1..];
    } else {
      assert Escape([]) == [];
    }
  }

  /** And it is the only comma-free text that unescapes to the name. */
  lemma {:induction false} EscapeUnescape(s: bytes)
    requires Unescape(s).Some? && COMMA !in s
    ensures Escape(Unescape(s).value) == s
  {
    hide Escape;
    var u := Unescape(s).value;
    if s == [] {
      EscapeEmpty();
    } else {
      var n := if s[0] != EQUALS then 1 else 3;
      EscapeUnescape(s[n..]);
      EscapeCons(u);
      assert u[1..] == Unescape(s[n..]).value;
      assert s == s[..n] + s[n..];
    }
  }

  lemma EscapeEmpty()
    ensures Escape([]) == []
  {
  }

  lemma {:induction false} EscapeUtf8(s: bytes)
    requires IsUtf8(s)
    ensures IsUtf8(Escape(s))
  {
    if s == [] {
      EscapeEmpty();
    } else {
      var n := Utf8Head(s);
      EscapeUtf8(s[n..]);
      EscapeHead(s, n);
      var head := if n == 1 then EscapeByte(s[0]) else s[..n];
      assert IsUtf8(head) by {
        if n == 1 {
          AsciiIsUtf8(head);
        } else {
          assert Utf8Head(head) == n && head[n..] == [];
        }
      }
      Utf8Concat(head, Escape(s[n..]));
    }
  }

  lemma EscapeHead(s: bytes, n: nat)
    requires s != [] && n == Utf8Head(s) > 0
    ensures Escape(s) == (if n == 1 then EscapeByte(s[0]) else s[..n]) + Escape(s[n..])
  {
    hide Escape, IsUtf8;
    EscapeCons(s);
    if n >= 2 {
      EscapeCons(s[1..]);
      assert s[1..][1..] == s[2..];
      assert s[..2] == [s[0]] + [s[1]];
    }
    if n >= 3 {
      EscapeCons(s[2..]);
      assert s[2..][1..] == s[3..];
      assert s[..3] == s[..2] + [s[2]];
    }
    if n >= 4 {
      EscapeCons(s[3..]);
      assert s[3..][1..] == s[4..];
      assert s[..4] == s[..3] + [s[3]];
    }
  }

  // --------------------------------------------------------------- attributes

  function Item(key: byte, value: bytes): bytes {
    [key, EQUALS] + value
  }

  function Items(message: bytes): seq<bytes> {
    Split(message, COMMA)
  }

  /** `find_map(strip_prefix)` over the items. */
  function FirstValue(items: seq<bytes>, key: byte): Option<bytes> {
    if items == [] then None
    else if |items[0]| >= 2 && items[0][0] == key && items[0][1] == EQUALS then Some(items[0][2..])
    else FirstValue(items[1..], key)
  }

  /** `scram_attribute`. */
  function Attribute(message: bytes, key: byte): Option<bytes> {
    FirstValue(Items(message), key)
  }

  /** Where `split_once('=')` cuts an item. */
  function CutAt(item: bytes): Option<nat> {
    if item == [] then None
    else if item[0] == EQUALS then Some(0)
    else
      match CutAt(item[1..])
      case None => None
      case Some(i) => Some(i + 1)
  }

  predicate Keyed(item: bytes) {
    CutAt(item).Some?
  }

  /** The item is `key=value`, with nothing else before the first equals sign. */
  predicate HasKey(item: bytes, key: byte) {
    |item| >= 2 && item[0] == key && item[1] == EQUALS
  }

  lemma {:induction false} CutAtFirst(item: bytes)
    ensures CutAt(item).Some? <==> EQUALS in item
    ensures CutAt(item).Some? ==> CutAt(item).value < |item| && item[CutAt(item).value] == EQUALS
                                  && forall j :: 0 <= j < CutAt(item).value ==> item[j] != EQUALS
  {
    if item != [] && item[0] != EQUALS {
      CutAtFirst(item[1..]);
      assert forall j :: 0 <= j < |item| - 1 ==> item[j + 1] == item[1..][j];
    }
  }

  /** The value of the last item with that key. */
  function LastValue(items: seq<bytes>, key: byte): Option<bytes> {
    if items == [] then None
    else if HasKey(items[|items| - 1], key) then Some(items[|items| - 1][2..])
    else LastValue(items[..|items| - 1], key)
  }

  /** It is that of an item with no other of that key after it, and there is none if and only if no item has the key. */
  lemma {:induction false} LastValueIff(items: seq<bytes>, key: byte) returns (at: nat)
    ensures match LastValue(items, key)
            case Some(value) =>
              && at < |items| && items[at] == [key, EQUALS] + value
              && forall j :: at < j < |items| ==> !HasKey(items[j], key)
            case None => forall j :: 0 <= j < |items| ==> !HasKey(items[j], key)
  {
    at := 0;
    if items != [] {
      var n := |items| - 1;
      if HasKey(items[n], key) {
        at := n;
      } else {
        at := LastValueIff(items[..n], key);
        assert forall j :: 0 <= j < n ==> items[..n][j] == items[j];
      }
    }
  }

  /** The client half takes the first item of a key instead. */
  lemma {:induction false} FirstValueIff(items: seq<bytes>, key: byte) returns (at: nat)
    ensures match FirstValue(items, key)
            case Some(value) =>
              && at < |items| && items[at] == [key, EQUALS] + value
              && forall j :: 0 <= j < at ==> !HasKey(items[j], key)
            case None => forall j :: 0 <= j < |items| ==> !HasKey(items[j], key)
  {
    at := 0;
    if items != [] && !HasKey(items[0], key) {
      at := FirstValueIff(items[1..], key);
      assert forall j :: 0 < j < |items| ==> items[1..][j - 1] == items[j];
      at := at + 1;
    }
  }

  predicate AllKeyed(items: seq<bytes>) {
    forall i :: 0 <= i < |items| ==> Keyed(items[i])
  }

  /** Every name item holds a valid escape. */
  predicate NamesUnescape(items: seq<bytes>) {
    forall i :: 0 <= i < |items| && HasKey(items[i], N) ==> Unescape(items[i][2..]).Some?
  }

  datatype ClientFirst = ClientFirst(bare: bytes, username: bytes, nonce: bytes)

  function ParseClientFirst(message: bytes): Option<ClientFirst> {
    if |message| < 3 || message[..3] != GS2 then None
    else
      var bare := message[3..];
      var items := Items(bare);
      if !AllKeyed(items) || !NamesUnescape(items) then None
      else
        match (LastValue(items, N), LastValue(items, R))
        case (Some(name), Some(nonce)) =>
          (match Unescape(name)
           case Some(username) => Some(ClientFirst(bare, username, nonce))
           case None => None)
        case _ => None
  }

  datatype Field = Field(key: bytes, value: bytes)

  method SplitOnce(item: bytes) returns (r: Option<Field>)
    ensures r.Some? <==> Keyed(item)
    ensures r.Some? ==> item == r.value.key + [EQUALS] + r.value.value
    ensures r.Some? ==> forall k: byte | k != EQUALS :: (r.value.key == [k] <==> HasKey(item, k))
    ensures r.Some? ==> forall k: byte | HasKey(item, k) && k != EQUALS :: r.value.value == item[2..]
  {
    hide CutAt;
    CutAtFirst(item);
    var at := CutAt(item);
    if at.None? {
      return None;
    }
    var key, value := item[..at.value], item[at.value + 1..];
    r := Some(Field(key, value));
    forall k: byte | k != EQUALS
      ensures key == [k] <==> HasKey(item, k)
      ensures HasKey(item, k) ==> value == item[2..]
    {
      if HasKey(item, k) {
        assert item[0] != EQUALS && item[1] == EQUALS;
      }
    }
  }

  /** `parse_scram_client_first`. */
  method ReadClientFirst(message: bytes) returns (r: Option<ClientFirst>)
    ensures r == ParseClientFirst(message)
  {
    hide Unescape, CutAt, Split;
    if |message| < 3 || message[..3] != GS2 {
      return None;
    }
    var bare := message[3..];
    var items := Items(bare);
    var username: Option<bytes>, nonce: Option<bytes> := None, None;
    ghost var name: Option<bytes> := None;
    for i := 0 to |items|
      invariant AllKeyed(items[..i]) && NamesUnescape(items[..i])
      invariant name == LastValue(items[..i], N) && nonce == LastValue(items[..i], R)
      invariant username == (if name.None? then None else Unescape(name.value)) && (name.Some? ==> username.Some?)
    {
      assert items[..i + 1][..i] == items[..i];
      var field := SplitOnce(items[i]);
      if field.None? {
        assert !AllKeyed(items);
        return None;
      }
      if field.value.key == [N] {
        username := UnescapeText(field.value.value);
        name := Some(field.value.value);
        if username.None? {
          assert HasKey(items[i], N) && !NamesUnescape(items);
          return None;
        }
      } else if field.value.key == [R] {
        nonce := Some(field.value.value);
      }
    }
    assert items[..|items|] == items;
    if username.None? || nonce.None? {
      return None;
    }
    r := Some(ClientFirst(bare, username.value, nonce.value));
  }

  datatype ClientFinal = ClientFinal(binding: bytes, nonce: bytes, proof: bytes)

  function ParseClientFinal(message: bytes): Option<ClientFinal> {
    var items := Items(message);
    if !AllKeyed(items) then None
    else
      match (LastValue(items, C), LastValue(items, R), LastValue(items, P))
      case (Some(binding), Some(nonce), Some(proof)) => Some(ClientFinal(binding, nonce, proof))
      case _ => None
  }

  /** `parse_scram_client_final`. */
  method ReadClientFinal(message: bytes) returns (r: Option<ClientFinal>)
    ensures r == ParseClientFinal(message)
  {
    hide CutAt, Split;
    var items := Items(message);
    var binding: Option<bytes>, nonce: Option<bytes>, proof: Option<bytes> := None, None, None;
    for i := 0 to |items|
      invariant AllKeyed(items[..i])
      invariant binding == LastValue(items[..i], C) && nonce == LastValue(items[..i], R) && proof == LastValue(items[..i], P)
    {
      assert items[..i + 1][..i] == items[..i];
      var field := SplitOnce(items[i]);
      if field.None? {
        assert !AllKeyed(items);
        return None;
      }
      if field.value.key == [C] {
        binding := Some(field.value.value);
      } else if field.value.key == [R] {
        nonce := Some(field.value.value);
      } else if field.value.key == [P] {
        proof := Some(field.value.value);
      }
    }
    assert items[..|items|] == items;
    if binding.None? || nonce.None? || proof.None? {
      return None;
    }
    r := Some(ClientFinal(binding.value, nonce.value, proof.value));
  }

  // ---------------------------------------------------- exactly what is a message

  /** Every comma-separated item has an equals sign, and every name among them is escaped well. */
  predicate WellFormedItems(items: seq<bytes>) {
    forall i :: 0 <= i < |items| ==> EQUALS in items[i] && ([N, EQUALS] <= items[i] ==> Unescape(items[i][2..]).Some?)
  }

  lemma WellFormedIff(items: seq<bytes>)
    ensures WellFormedItems(items) <==> AllKeyed(items) && NamesUnescape(items)
    ensures (forall i :: 0 <= i < |items| ==> EQUALS in items[i]) <==> AllKeyed(items)
  {
    hide Unescape, CutAt;
    forall i | 0 <= i < |items|
      ensures Keyed(items[i]) <==> EQUALS in items[i]
      ensures HasKey(items[i], N) <==> [N, EQUALS] <= items[i]
    {
      CutAtFirst(items[i]);
      assert |items[i]| >= 2 ==> items[i][..2] == [items[i][0], items[i][1]];
    }
  }

  /**
   A message is a client's first if and only if it is `n,,` and well-formed items among which the last name unescapes
   to the user and the last nonce is the nonce.
   */
  lemma ClientFirstIff(message: bytes, m: ClientFirst)
    ensures ParseClientFirst(message) == Some(m)
       <==> && message == [110, 44, 44] + m.bare && WellFormedItems(Items(m.bare))
            && LastValue(Items(m.bare), R) == Some(m.nonce)
            && LastValue(Items(m.bare), N).Some? && Unescape(LastValue(Items(m.bare), N).value) == Some(m.username)
  {
    hide Unescape, CutAt, Split, LastValue, WellFormedItems, AllKeyed, NamesUnescape;
    WellFormedIff(Items(m.bare));
    if |message| >= 3 && message[..3] == GS2 {
      assert message == GS2 + message[3..];
    }
    assert ([110, 44, 44] + m.bare)[..3] == GS2 && ([110, 44, 44] + m.bare)[3..] == m.bare;
  }

  /** And a client's last if and only if every item has an equals sign and the last binding, nonce and proof are these. */
  lemma ClientFinalIff(message: bytes, m: ClientFinal)
    ensures ParseClientFinal(message) == Some(m)
       <==> && (forall i :: 0 <= i < |Items(message)| ==> EQUALS in Items(message)[i])
            && LastValue(Items(message), C) == Some(m.binding) && LastValue(Items(message), R) == Some(m.nonce)
            && LastValue(Items(message), P) == Some(m.proof)
  {
    hide CutAt, Split, LastValue, AllKeyed;
    WellFormedIff(Items(message));
  }

  // ------------------------------------------------------------------ numbers

  /** `parse::<u32>()`: digits, after an optional plus sign. */
  function ParseU32(s: bytes): Option<nat> {
    var digits := if s != [] && s[0] == PLUS then s[1..] else s;
    if digits != [] && Digits(digits) && Value(digits) < 0x1_0000_0000 then Some(Value(digits)) else None
  }

  lemma ParsePrintedU32(n: nat)
    requires n < 0x1_0000_0000
    ensures ParseU32(Decimal(n)) == Some(n)
  {
    ValueDecimal(n);
  }
}
