/** SQL fingerprints (fingerprint.rs) over the tokens the SQL tokenizer yields. */
module Fingerprints {
  import opened Wrappers
  import opened Bytes

  const LIMIT: nat := 256

  const SPACE: byte := 32
  const OPEN: byte := 40
  const CLOSE: byte := 41
  const COMMA: byte := 44
  const SEMICOLON: byte := 59
  const MARK: byte := 63

  datatype Token = Comment | Literal | Word(text: bytes) | Symbol(text: bytes)

  /** The second to last byte of a UTF-8 character. */
  predicate Continues(b: byte) {
    128 <= b < 192
  }

  /** Letters, digits, `_` and `$`. */
  predicate WordByte(b: byte) {
    48 <= b <= 57 || 65 <= b <= 90 || 97 <= b <= 122 || b == 95 || b == 36
  }

  /** What the tokenizer yields: ASCII words, and symbols of one character. */
  predicate Proper(t: Token) {
    match t
    case Word(text) => text != [] && forall i :: 0 <= i < |text| ==> WordByte(text[i])
    case Symbol(text) => text != [] && !Continues(text[0])
    case _ => true
  }

  function LowerByte(b: byte): byte {
    if 65 <= b <= 90 then b + 32 else b
  }

  function Lower(s: bytes): bytes {
    seq(|s|, i requires 0 <= i < |s| => LowerByte(s[i]))
  }

  function AppendToken(output: bytes, token: bytes): bytes {
    var space := && output != [] && output[|output| - 1] != OPEN
                 && !(token != [] && (token[0] == CLOSE || token[0] == COMMA || token[0] == SEMICOLON));
    output + (if space then [SPACE] else []) + token
  }

  predicate EndsIn(output: bytes) {
    |output| >= 3 && output[|output| - 3..] == [SPACE, 105, 110]
  }

  datatype State = State(output: bytes, inList: bool, values: nat)

  const START := State([], false, 0)

  function Step(s: State, t: Token): State {
    match t
    case Comment => s
    case Literal =>
      s.(output := if !s.inList || s.values == 0 then AppendToken(s.output, [MARK]) else s.output, values := s.values + 1)
    case Word(text) => s.(output := AppendToken(s.output, Lower(text)))
    case Symbol(text) =>
      if text == [OPEN] && EndsIn(s.output) then State(AppendToken(s.output, [OPEN]), true, 0)
      else if s.inList && text == [CLOSE] then s.(output := AppendToken(s.output, [CLOSE]), inList := false)
      else if s.inList && text == [COMMA] then s.(values := s.values + 1)
      else s.(output := AppendToken(s.output, text))
  }

  function Fold(s: State, tokens: seq<Token>): State {
    if tokens == [] then s else Step(Fold(s, tokens[..|tokens| - 1]), tokens[|tokens| - 1])
  }

  /** The normal form of a statement, however long. */
  function Normal(tokens: seq<Token>): bytes {
    Fold(START, tokens).output
  }

  /** `truncate(256)`: `None` for the panic when the cut falls inside a character. */
  function Truncate(output: bytes): Option<bytes> {
    if |output| > LIMIT && Continues(output[LIMIT]) then None
    else Some(if |output| > LIMIT then output[..LIMIT] else output)
  }

  // ---------------------------------------------------- the loop and its meaning

  /** What one token adds to the output. */
  lemma StepAppends(s: State, t: Token)
    requires Proper(t)
    ensures var o := Step(s, t).output;
            s.output <= o && (|o| > |s.output| ==> !Continues(o[|s.output|]))
  {
  }

  lemma {:induction false} FoldAppends(s: State, tokens: seq<Token>, n: nat)
    requires n <= |tokens| && forall t :: t in tokens ==> Proper(t)
    ensures Fold(s, tokens[..n]).output <= Fold(s, tokens).output
    ensures |Fold(s, tokens).output| > |Fold(s, tokens[..n]).output|
        ==> !Continues(Fold(s, tokens).output[|Fold(s, tokens[..n]).output|])
    decreases |tokens|
  {
    hide Step;
    var k := |tokens| - 1;
    if n == |tokens| {
      assert tokens[..n] == tokens;
    } else {
      FoldAppends(s, tokens[..k], n);
      assert tokens[..k][..n] == tokens[..n];
      StepAppends(Fold(s, tokens[..k]), tokens[k]);
    }
  }

  /** Cutting at the token that reaches the limit is the same as cutting the whole normal form. */
  lemma CutEarly(tokens: seq<Token>, n: nat)
    requires n <= |tokens| && forall t :: t in tokens ==> Proper(t)
    requires |Normal(tokens[..n])| >= LIMIT
    ensures Truncate(Normal(tokens[..n])) == Truncate(Normal(tokens))
  {
    FoldAppends(START, tokens, n);
    var cut, whole := Normal(tokens[..n]), Normal(tokens);
    assert cut == whole[..|cut|];
    assert cut[..LIMIT] == whole[..LIMIT];
    assert |cut| == LIMIT ==> cut == cut[..LIMIT] && (|whole| == LIMIT ==> whole == cut);
    assert |cut| > LIMIT ==> cut[LIMIT] == whole[LIMIT];
  }

  /**
   `fingerprint_sql`: one pass that stops at the limit computes the normal form cut to 256 bytes, and panics if
   and only if that cut would split a character.
   */
  method Fingerprint(tokens: seq<Token>) returns (r: Option<bytes>)
    requires forall t :: t in tokens ==> Proper(t)
    ensures r == Truncate(Normal(tokens))
  {
    var output, inList, values := [], false, 0;
    for i := 0 to |tokens|
      invariant State(output, inList, values) == Fold(START, tokens[..i]) && |output| < LIMIT
    {
      assert tokens[..i + 1][..i] == tokens[..i];
      match tokens[i] {
        case Comment =>
        case Literal =>
          if !inList {
            output := AppendToken(output, [MARK]);
          } else if values == 0 {
            output := AppendToken(output, [MARK]);
          }
          values := values + 1;
        case Word(text) =>
          output := AppendToken(output, Lower(text));
        case Symbol(text) =>
          if text == [OPEN] && EndsIn(output) {
            inList, values := true, 0;
            output := AppendToken(output, [OPEN]);
          } else if inList && text == [CLOSE] {
            output := AppendToken(output, [CLOSE]);
            inList := false;
          } else if inList && text == [COMMA] {
            values := values + 1;
          } else {
            output := AppendToken(output, text);
          }
      }
      if |output| >= LIMIT {
        r := Truncate(output);
        CutEarly(tokens, i + 1);
        return;
      }
    }
    assert tokens[..|tokens|] == tokens;
    r := Some(output);
  }

  predicate AllAscii(tokens: seq<Token>) {
    forall t :: t in tokens && t.Symbol? ==> IsAscii(t.text)
  }

  lemma {:induction false} AsciiNormal(tokens: seq<Token>)
    requires AllAscii(tokens) && forall t :: t in tokens ==> Proper(t)
    ensures IsAscii(Normal(tokens))
  {
    if tokens != [] {
      AsciiNormal(tokens[..|tokens| - 1]);
      assert Proper(tokens[|tokens| - 1]);
    }
  }

  /** ASCII statements always have a fingerprint, of at most 256 bytes. */
  lemma AsciiIsBounded(tokens: seq<Token>)
    requires AllAscii(tokens) && forall t :: t in tokens ==> Proper(t)
    ensures Truncate(Normal(tokens)).Some? && |Truncate(Normal(tokens)).value| <= LIMIT
  {
    AsciiNormal(tokens);
  }

  /** Others may not: a two-byte symbol after a word of 254 bytes straddles the limit. */
  lemma StraddlingSymbolPanics(word: bytes)
    requires |word| == 254 && Proper(Word(word))
    ensures Proper(Symbol([0xC3, 0xA9])) && Truncate(Normal([Word(word), Symbol([0xC3, 0xA9])])).None?
  {
    hide Lower;
    LowerKeeps(word);
    var tokens := [Word(word), Symbol([0xC3, 0xA9])];
    assert tokens[..1] == [Word(word)] && [Word(word)][..0] == [];
    assert Fold(START, []) == START;
    assert Fold(START, [Word(word)]).output == Lower(word);
    assert Fold(START, tokens).output == Lower(word) + [SPACE] + [0xC3, 0xA9];
  }

  lemma LowerKeeps(word: bytes)
    requires Proper(Word(word))
    ensures |Lower(word)| == |word| && Lower(word)[|word| - 1] != OPEN
  {
    assert WordByte(word[|word| - 1]);
  }

  // ------------------------------------------------------ what it does not see

  /** The tokens without comments and with words in lower case. */
  function Shape(tokens: seq<Token>): seq<Token> {
    if tokens == [] then []
    else
      var rest := Shape(tokens[..|tokens| - 1]);
      match tokens[|tokens| - 1]
      case Comment => rest
      case Word(text) => rest + [Word(Lower(text))]
      case t => rest + [t]
  }

  lemma LowerTwice(s: bytes)
    ensures Lower(Lower(s)) == Lower(s)
  {
  }

  lemma {:induction false} ShapeFolds(tokens: seq<Token>)
    ensures Fold(START, tokens) == Fold(START, Shape(tokens))
  {
    hide AppendToken, EndsIn;
    if tokens != [] {
      var n := |tokens| - 1;
      ShapeFolds(tokens[..n]);
      var rest := Shape(tokens[..n]);
      var t := tokens[n];
      if !t.Comment? {
        var u := if t.Word? then Word(Lower(t.text)) else t;
        assert Shape(tokens) == rest + [u] && (rest + [u])[..|rest|] == rest;
        if t.Word? {
          LowerTwice(t.text);
        }
      }
    }
  }

  /** Statements that differ in comments and letter case only have the same normal form. */
  lemma CaseAndCommentsIgnored(a: seq<Token>, b: seq<Token>)
    requires Shape(a) == Shape(b)
    ensures Normal(a) == Normal(b)
  {
    ShapeFolds(a);
    ShapeFolds(b);
  }

  lemma {:induction false} FoldConcat(s: State, a: seq<Token>, b: seq<Token>)
    ensures Fold(s, a + b) == Fold(Fold(s, a), b)
  {
    hide Step;
    if b == [] {
      assert a + b == a;
    } else {
      FoldConcat(s, a, b[..|b| - 1]);
      assert (a + b)[..|a + b| - 1] == a + b[..|b| - 1];
    }
  }

  /** The value counter matters only inside a list, and there only whether it is zero. */
  predicate Alike(s: State, t: State) {
    s.output == t.output && s.inList == t.inList && (s.inList ==> (s.values == 0 <==> t.values == 0))
  }

  lemma {:induction false} FoldAlike(s: State, t: State, tokens: seq<Token>)
    requires Alike(s, t)
    ensures Alike(Fold(s, tokens), Fold(t, tokens))
  {
    hide AppendToken, EndsIn;
    if tokens != [] {
      FoldAlike(s, t, tokens[..|tokens| - 1]);
    }
  }

  /** Literals, commas and comments. */
  predicate Values(tokens: seq<Token>) {
    forall i :: 0 <= i < |tokens| ==> tokens[i].Comment? || tokens[i].Literal? || tokens[i] == Symbol([COMMA])
  }

  lemma {:induction false} ValuesIgnored(s: State, values: seq<Token>)
    requires s.inList && s.values > 0 && Values(values)
    ensures Alike(Fold(s, values), s)
  {
    hide AppendToken, EndsIn;
    if values != [] {
      ValuesIgnored(s, values[..|values| - 1]);
    }
  }

  /** A parenthesised list whose first value is a literal. */
  function List(values: seq<Token>): seq<Token> {
    [Symbol([OPEN]), Literal] + values + [Symbol([CLOSE])]
  }

  /** A list met here is folded into one mark. */
  predicate Collapses(s: State) {
    EndsIn(s.output) || s.inList
  }

  lemma ListFolds(s: State, values: seq<Token>)
    requires Collapses(s) && Values(values)
    ensures Alike(Fold(s, List(values)), Fold(s, List([])))
  {
    hide AppendToken, EndsIn;
    var head, close := [Symbol([OPEN]), Literal], [Symbol([CLOSE])];
    assert head[..1] == [Symbol([OPEN])] && [Symbol([OPEN])][..0] == [];
    assert Fold(s, []) == s;
    var open := Fold(s, head);
    assert Fold(s, [Symbol([OPEN])]).inList && open.inList && open.values > 0;
    FoldConcat(s, head + values, close);
    FoldConcat(s, head, values);
    FoldConcat(s, head, close);
    assert List([]) == head + close;
    ValuesIgnored(open, values);
    FoldAlike(Fold(open, values), open, close);
  }

  /** After `in`, or inside such a list, the number and shape of the further values leave the normal form alone. */
  lemma InListCollapses(before: seq<Token>, values: seq<Token>, values': seq<Token>, after: seq<Token>)
    requires Collapses(Fold(START, before)) && Values(values) && Values(values')
    ensures Normal(before + List(values) + after) == Normal(before + List(values') + after)
  {
    hide Step, Collapses, List;
    var s := Fold(START, before);
    FoldConcat(START, before, List(values));
    FoldConcat(START, before, List(values'));
    FoldConcat(START, before + List(values), after);
    FoldConcat(START, before + List(values'), after);
    ListFolds(s, values);
    ListFolds(s, values');
    FoldAlike(Fold(s, List(values)), Fold(s, List(values')), after);
  }

  ghost predicate AllListsCollapse(before: seq<Token>) {
    forall values, values', after :: Values(values) && Values(values') ==>
                                       Normal(before + List(values) + after) == Normal(before + List(values') + after)
  }

  lemma ListSteps(s: State)
    ensures Fold(s, List([])) == Step(Step(Step(s, Symbol([OPEN])), Literal), Symbol([CLOSE]))
    ensures Fold(s, List([Symbol([COMMA]), Literal]))
         == Step(Step(Step(Step(Step(s, Symbol([OPEN])), Literal), Symbol([COMMA])), Literal), Symbol([CLOSE]))
  {
    hide Step;
    var open, comma, close := Symbol([OPEN]), Symbol([COMMA]), Symbol([CLOSE]);
    assert List([]) == [open, Literal, close];
    Steps3(s, open, Literal, close);
    assert List([comma, Literal]) == [open, Literal, comma] + [Literal, close];
    FoldConcat(s, [open, Literal, comma], [Literal, close]);
    Steps3(s, open, Literal, comma);
    var t := Fold(s, [open, Literal, comma]);
    assert [Literal, close][..1] == [Literal] && [Literal][..0] == [];
    assert Fold(t, []) == t && Fold(t, [Literal]) == Step(t, Literal);
  }

  /** Elsewhere a second value shows. */
  lemma SecondValueShows(s: State)
    requires !Collapses(s)
    ensures Fold(s, List([])).output != Fold(s, List([Symbol([COMMA]), Literal])).output
  {
    hide EndsIn, Fold, List;
    ListSteps(s);
  }

  lemma Steps3(s: State, a: Token, b: Token, c: Token)
    ensures Fold(s, [a, b, c]) == Step(Step(Step(s, a), b), c)
  {
    hide Step;
    assert [a, b, c][..2] == [a, b] && [a, b][..1] == [a] && [a][..0] == [];
    assert Fold(s, []) == s && Fold(s, [a]) == Step(s, a) && Fold(s, [a, b]) == Step(Step(s, a), b);
  }

  /**
   The number of literals in a parenthesised list is ignored if and only if the normal form up to it ends in
   ` in`, or an outer such list is open. A leading `in`, or one right after a parenthesis, has no space before it.
   */
  lemma InListIgnoredIff(before: seq<Token>)
    ensures AllListsCollapse(before) <==> Collapses(Fold(START, before))
  {
    hide Step, Collapses, List, Fold;
    if Collapses(Fold(START, before)) {
      forall values, values', after | Values(values) && Values(values')
        ensures Normal(before + List(values) + after) == Normal(before + List(values') + after)
      {
        InListCollapses(before, values, values', after);
      }
    } else {
      var two := [Symbol([COMMA]), Literal];
      SecondValueShows(Fold(START, before));
      FoldConcat(START, before, List([]));
      FoldConcat(START, before, List(two));
      assert before + List([]) + [] == before + List([]) && before + List(two) + [] == before + List(two);
      assert Values([]) && Values(two);
      assert Normal(before + List([]) + []) != Normal(before + List(two) + []);
    }
  }

  lemma LeadingInIsNotCollapsed(word: bytes)
    requires Lower(word) == [105, 110]
    ensures !Collapses(Fold(START, [Word(word)]))
  {
    assert [Word(word)][..0] == [] && Fold(START, []) == START;
  }

  // ------------------------------------------------------- the normal form, word by word

  /** The texts a statement comes down to, whether a folded list is open, and how many of its values were met. */
  datatype Reading = Reading(texts: seq<bytes>, inList: bool, values: nat)

  /** The last text is `in`, and stands apart from what comes before it. */
  predicate AfterIn(texts: seq<bytes>) {
    && |texts| >= 2 && texts[|texts| - 1] == [105, 110]
    && texts[|texts| - 2] != [] && texts[|texts| - 2][|texts[|texts| - 2]| - 1] != OPEN
  }

  /** Words in lower case, a mark for each literal, symbols as they are; of a list after `in`, its first value alone. */
  function Read(tokens: seq<Token>): Reading {
    if tokens == [] then Reading([], false, 0)
    else
      var r := Read(tokens[..|tokens| - 1]);
      match tokens[|tokens| - 1]
      case Comment => r
      case Literal => Reading(if r.inList && r.values > 0 then r.texts else r.texts + [[MARK]], r.inList, r.values + 1)
      case Word(text) => r.(texts := r.texts + [Lower(text)])
      case Symbol(text) =>
        if text == [OPEN] && AfterIn(r.texts) then Reading(r.texts + [text], true, 0)
        else if r.inList && text == [COMMA] then r.(values := r.values + 1)
        else Reading(r.texts + [text], r.inList && text != [CLOSE], r.values)
  }

  /** Whether two neighbours are set apart: not after an opening parenthesis, nor before a closing one, a comma or a semicolon. */
  predicate Apart(x: bytes, y: bytes) {
    && x != [] && y != [] && x[|x| - 1] != OPEN
    && y[0] != CLOSE && y[0] != COMMA && y[0] != SEMICOLON
  }

  function Join(texts: seq<bytes>): bytes {
    if texts == [] then []
    else
      var n := |texts| - 1;
      Join(texts[..n]) + (if n > 0 && Apart(texts[n - 1], texts[n]) then [SPACE] else []) + texts[n]
  }

  predicate Solid(texts: seq<bytes>) {
    forall i :: 0 <= i < |texts| ==> texts[i] != [] && SPACE !in texts[i]
  }

  lemma {:induction false} JoinEnds(texts: seq<bytes>)
    requires Solid(texts)
    ensures texts == [] <==> Join(texts) == []
    ensures texts != [] ==> Join(texts)[|Join(texts)| - 1] == texts[|texts| - 1][|texts[|texts| - 1]| - 1]
  {
    if texts != [] {
      JoinEnds(texts[..|texts| - 1]);
    }
  }

  lemma JoinAppends(texts: seq<bytes>, y: bytes)
    requires Solid(texts) && y != []
    ensures AppendToken(Join(texts), y) == Join(texts + [y])
  {
    JoinEnds(texts);
    assert (texts + [y])[..|texts|] == texts;
  }

  lemma LastText(before: bytes, last: bytes)
    requires last != [] && SPACE !in last && EndsIn(before + last)
    ensures before != []
    ensures (last == [105, 110] && before[|before| - 1] == SPACE) || (last == [110] && before[|before| - 1] == 105)
  {
    var out := before + last;
    var end := out[|out| - 3..];
    assert end[0] == out[|out| - 3] && end[1] == out[|out| - 2] && end[2] == out[|out| - 1];
    assert |last| >= 2 ==> out[|out| - 2] == last[|last| - 2];
    assert out[|out| - 1] == last[|last| - 1];
  }

  /** Seen in the output, ` in` is a last text `in` set apart. */
  lemma EndsInIff(texts: seq<bytes>)
    requires Solid(texts)
    ensures EndsIn(Join(texts)) <==> AfterIn(texts)
  {
    if texts != [] {
      var n := |texts| - 1;
      var head, last := Join(texts[..n]), texts[n];
      var gap := if n > 0 && Apart(texts[n - 1], last) then [SPACE] else [];
      assert Join(texts) == head + gap + last;
      JoinEnds(texts[..n]);
      if EndsIn(Join(texts)) {
        LastText(head + gap, last);
        InIsApart(texts, head + gap);
      }
      if AfterIn(texts) {
        assert (head + gap + last)[|head|..] == gap + last;
      }
    }
  }

  lemma InIsApart(texts: seq<bytes>, before: bytes)
    requires Solid(texts) && texts != [] && before != []
    requires var n := |texts| - 1;
             && Join(texts) == before + texts[n]
             && ((texts[n] == [105, 110] && before[|before| - 1] == SPACE) || (texts[n] == [110] && before[|before| - 1] == 105))
    ensures AfterIn(texts)
  {
    var n := |texts| - 1;
    var head := Join(texts[..n]);
    JoinEnds(texts[..n]);
    assert before == Join(texts)[..|before|];
    var gap := if n > 0 && Apart(texts[n - 1], texts[n]) then [SPACE] else [];
    assert Join(texts) == head + gap + texts[n];
    assert before == head + gap;
  }

  /** What the tokenizer yields holds no space. */
  predicate Spaceless(t: Token) {
    Proper(t) && (t.Symbol? ==> SPACE !in t.text)
  }

  lemma LowerSolid(text: bytes)
    requires Spaceless(Word(text))
    ensures Lower(text) != [] && SPACE !in Lower(text)
  {
    assert forall i :: 0 <= i < |text| ==> WordByte(text[i]) && LowerByte(text[i]) != SPACE;
  }

  lemma SolidAppend(texts: seq<bytes>, y: bytes)
    requires Solid(texts) && y != [] && SPACE !in y
    ensures Solid(texts + [y])
  {
  }

  /** One token adds to the output what it adds to the texts. */
  lemma StepReads(s: State, r: Reading, t: Token, before: seq<Token>)
    requires Spaceless(t) && Solid(r.texts) && s == State(Join(r.texts), r.inList, r.values) && r == Read(before)
    ensures var next := Read(before + [t]);
            Solid(next.texts) && Step(s, t) == State(Join(next.texts), next.inList, next.values)
  {
    hide AppendToken, EndsIn, AfterIn, Join, Solid;
    assert (before + [t])[..|before|] == before;
    match t {
      case Comment =>
      case Literal =>
        JoinAppends(r.texts, [MARK]);
        SolidAppend(r.texts, [MARK]);
      case Word(text) =>
        LowerSolid(text);
        JoinAppends(r.texts, Lower(text));
        SolidAppend(r.texts, Lower(text));
      case Symbol(text) =>
        EndsInIff(r.texts);
        JoinAppends(r.texts, text);
        SolidAppend(r.texts, text);
    }
  }

  lemma {:induction false} FoldReads(tokens: seq<Token>)
    requires forall t :: t in tokens ==> Spaceless(t)
    ensures var r := Read(tokens);
            Solid(r.texts) && Fold(START, tokens) == State(Join(r.texts), r.inList, r.values)
  {
    if tokens == [] {
      assert Join([]) == [];
    } else {
      hide Step, Join, Solid, Read, Spaceless;
      var n := |tokens| - 1;
      FoldReads(tokens[..n]);
      assert tokens == tokens[..n] + [tokens[n]];
      StepReads(Fold(START, tokens[..n]), Read(tokens[..n]), tokens[n], tokens[..n]);
    }
  }

  /** The normal form is these texts, set apart where neighbours are. */
  lemma NormalIsJoined(tokens: seq<Token>)
    requires forall t :: t in tokens ==> Spaceless(t)
    ensures Normal(tokens) == Join(Read(tokens).texts)
  {
    FoldReads(tokens);
  }

  // ------------------------------------------------------------------- letter case

  /** The same letter, in either case, or the same byte. */
  predicate SameLetter(a: byte, b: byte) {
    a == b || (65 <= a <= 90 && b == a + 32) || (65 <= b <= 90 && a == b + 32)
  }

  /** Words come out alike if and only if they are the same but for letter case, and come out without capitals. */
  lemma LowerIff(x: bytes, y: bytes)
    ensures Lower(x) == Lower(y) <==> |x| == |y| && forall i :: 0 <= i < |x| ==> SameLetter(x[i], y[i])
    ensures |Lower(x)| == |x|
    ensures forall i :: 0 <= i < |x| ==> SameLetter(Lower(x)[i], x[i]) && !(65 <= Lower(x)[i] <= 90)
  {
    if Lower(x) == Lower(y) {
      assert |x| == |y|;
      forall i | 0 <= i < |x|
        ensures SameLetter(x[i], y[i])
      {
        assert Lower(x)[i] == Lower(y)[i];
      }
    }
  }
}
