/** The part of SQL that filter texts use, read independently of how they are written: string
    literals and delimited identifiers (section 5.3 and 5.2 of ISO/IEC 9075:1992), LIKE patterns
    with ESCAPE (section 8.5), and conjunctions of predicates under three-valued logic. */
module SqlText {
  import opened Values

  // ------------------------------------------------------------------------- tokens

  datatype Token = Quoted(text: string) | Ident(name: string) | Word(word: string)

  datatype Lexed = Unclosed | Closed(content: string, rest: string)

  /** The text after an opening quote: a doubled quote stands for one, a single one closes. */
  function LexQuoted(s: string, quote: char): (r: Lexed)
    ensures r.Closed? ==> |r.rest| < |s|
  {
    if s == "" then Unclosed
    else if s[0] != quote then Add(s[0], LexQuoted(s[1..], quote))
    else if |s| > 1 && s[1] == quote then Add(quote, LexQuoted(s[2..], quote))
    else Closed("", s[1..])
  }

  function Add(c: char, r: Lexed): Lexed {
    if r.Unclosed? then Unclosed else Closed([c] + r.content, r.rest)
  }

  predicate Separates(c: char) {
    c == ' ' || c == '\'' || c == '"'
  }

  /** The leading word of a text. */
  function WordOf(s: string): (w: string)
    ensures |w| <= |s| && w == s[..|w|]
    ensures s != "" && !Separates(s[0]) ==> w != ""
  {
    if s == "" || Separates(s[0]) then "" else [s[0]] + WordOf(s[1..])
  }

  function Prepend(t: Token, ts: Option<seq<Token>>): Option<seq<Token>> {
    if ts.None? then None else Some([t] + ts.value)
  }

  function Tokens(s: string): Option<seq<Token>>
    decreases |s|
  {
    if s == "" then Some([])
    else if s[0] == ' ' then Tokens(s[1..])
    else if s[0] == '\'' || s[0] == '"' then
      var quoted := LexQuoted(s[1..], s[0]);
      if quoted.Unclosed? then None
      else Prepend(if s[0] == '"' then Ident(quoted.content) else Quoted(quoted.content), Tokens(quoted.rest))
    else
      var w := WordOf(s);
      Prepend(Word(w), Tokens(s[|w|..]))
  }

  function Doubled(s: string, quote: char): string {
    if s == "" then "" else (if s[0] == quote then [quote, quote] else [s[0]]) + Doubled(s[1..], quote)
  }

  /** A string literal doubles its quotes; an identifier's name stands as it is. */
  function Written(t: Token): string {
    match t
    case Quoted(text) => "'" + Doubled(text, '\'') + "'"
    case Ident(name) => "\"" + name + "\""
    case Word(word) => word
  }

  function Spaced(ts: seq<Token>): string {
    if ts == [] then ""
    else if |ts| == 1 then Written(ts[0])
    else Written(ts[0]) + " " + Spaced(ts[1..])
  }

  predicate Plain(word: string) {
    word != "" && forall i | 0 <= i < |word| :: !Separates(word[i])
  }

  predicate Writable(t: Token) {
    match t
    case Quoted(_) => true
    case Ident(name) => '"' !in name
    case Word(word) => Plain(word)
  }

  predicate Apart(rest: string) {
    rest == "" || rest[0] == ' '
  }

  /** Doubling the quotes is undone by reading. */
  lemma {:induction false} LexDoubled(s: string, quote: char, rest: string)
    requires Apart(rest) && quote != ' '
    ensures LexQuoted(Doubled(s, quote) + [quote] + rest, quote) == Closed(s, rest)
  {
    var text := Doubled(s, quote) + [quote] + rest;
    if s != "" {
      LexDoubled(s[1..], quote, rest);
      var next := Doubled(s[1..], quote) + [quote] + rest;
      assert text == (if s[0] == quote then [quote, quote] else [s[0]]) + next;
      assert text[if s[0] == quote then 2 else 1..] == next;
    } else {
      assert text == [quote] + rest;
    }
  }

  predicate NoQuoteNext(rest: string) {
    rest == "" || rest[0] != '"'
  }

  lemma {:induction false} LexUnquoted(s: string, rest: string)
    requires '"' !in s && NoQuoteNext(rest)
    ensures LexQuoted(s + "\"" + rest, '"') == Closed(s, rest)
  {
    if s != "" {
      assert forall c | c in s[1..] :: c in s;
      LexUnquoted(s[1..], rest);
      assert (s + "\"" + rest)[1..] == s[1..] + "\"" + rest;
    } else {
      assert s + "\"" + rest == ['"'] + rest;
    }
  }

  function Quotes(n: nat): string {
    seq(n, _ => '"')
  }

  lemma LexStep(c: char, s: string, quote: char)
    ensures c != quote ==> LexQuoted([c] + s, quote) == Add(c, LexQuoted(s, quote))
    ensures c == quote && s != "" && s[0] == quote ==> LexQuoted([c] + s, quote) == Add(quote, LexQuoted(s[1..], quote))
    ensures c == quote && (s == "" || s[0] != quote) ==> LexQuoted([c] + s, quote) == Closed("", s)
  {
    var text := [c] + s;
    assert text[1..] == s;
    if s != "" { assert text[2..] == s[1..]; }
  }

  /** A name that holds a quote never reads as itself, whatever follows it; nor does any name
      with quotes put before it. */
  lemma {:induction false} LexQuotedName(s: string, n: nat, rest: string)
    requires NoQuoteNext(rest)
    ensures var r := LexQuoted(s + "\"" + rest, '"');
            r.Closed? && r.content == Quotes(n) + s ==> n == 0 && '"' !in s
  {
    if s == "" {
      LexStep('"', rest, '"');
      assert s + "\"" + rest == ['"'] + rest;
    } else {
      var next := s[1..] + "\"" + rest;
      assert s + "\"" + rest == [s[0]] + next;
      LexStep(s[0], next, '"');
      hide LexQuoted; hide Quotes;
      if s[0] != '"' {
        LexQuotedName(s[1..], 0, rest);
        PlainHead(s, n, LexQuoted(next, '"'));
      } else if |s| == 1 {
        assert next == ['"'] + rest && next[1..] == rest;
        if rest != "" { LexStep(rest[0], rest[1..], '"'); assert rest == [rest[0]] + rest[1..]; }
        QuoteAlone(n, LexQuoted(rest, '"'));
        assert s == ['"'];
      } else if s[1] == '"' {
        assert next[1..] == s[2..] + "\"" + rest;
        LexQuotedName(s[2..], n + 1, rest);
        QuotePair(s, n, LexQuoted(next[1..], '"'));
      }
    }
  }

  lemma PlainHead(s: string, n: nat, r: Lexed)
    requires s != "" && s[0] != '"'
    ensures r.Closed? && Add(s[0], r).content == Quotes(n) + s ==> n == 0 && r.content == Quotes(0) + s[1..]
    ensures '"' in s ==> '"' in s[1..]
  {
    if r.Closed? && [s[0]] + r.content == Quotes(n) + s {
      assert ([s[0]] + r.content)[0] == (Quotes(n) + s)[0];
      assert Quotes(n) + s == s;
      assert ([s[0]] + r.content)[1..] == r.content;
    }
  }

  lemma QuoteAlone(n: nat, r: Lexed)
    requires r.Closed? ==> r.content != "" && r.content[0] != '"'
    ensures Add('"', r).Closed? ==> Add('"', r).content != Quotes(n) + ['"']
  {
    if r.Closed? {
      assert Add('"', r).content[1] == r.content[0];
    }
  }

  lemma QuotePair(s: string, n: nat, r: Lexed)
    requires |s| > 1 && s[0] == '"' && s[1] == '"'
    ensures r.Closed? && Add('"', r).content == Quotes(n) + s ==> r.content == Quotes(n + 1) + s[2..]
  {
    assert Quotes(n) + s == ['"'] + (Quotes(n + 1) + s[2..]);
    if r.Closed? && Add('"', r).content == Quotes(n) + s {
      assert (['"'] + r.content)[1..] == r.content;
      assert (['"'] + (Quotes(n + 1) + s[2..]))[1..] == Quotes(n + 1) + s[2..];
    }
  }

  lemma {:induction false} WordThen(word: string, rest: string)
    requires forall i | 0 <= i < |word| :: !Separates(word[i])
    requires Apart(rest)
    ensures WordOf(word + rest) == word
  {
    if word != "" {
      WordThen(word[1..], rest);
      assert (word + rest)[1..] == word[1..] + rest;
    } else {
      assert word + rest == rest;
    }
  }

  lemma TokensFirst(t: Token, rest: string)
    requires Writable(t) && Apart(rest)
    ensures Tokens(Written(t) + rest) == Prepend(t, Tokens(rest))
  {
    hide Tokens; hide LexQuoted;
    match t
    case Quoted(s) =>
      LexDoubled(s, '\'', rest);
      TokensQuoted('\'', s, Doubled(s, '\'') + "'", rest);
      assert Written(t) + rest == "'" + (Doubled(s, '\'') + "'" + rest);
    case Ident(name) =>
      LexUnquoted(name, rest);
      TokensQuoted('"', name, name + "\"", rest);
      assert Written(t) + rest == "\"" + (name + "\"" + rest);
    case Word(word) =>
      TokensWord(word, rest);
  }

  lemma TokensWord(word: string, rest: string)
    requires Plain(word) && Apart(rest)
    ensures Tokens(word + rest) == Prepend(Word(word), Tokens(rest))
  {
    hide LexQuoted;
    WordThen(word, rest);
    hide WordOf;
    var text := word + rest;
    assert !Separates(text[0]);
    assert text[|word|..] == rest;
  }

  lemma TokensQuoted(quote: char, content: string, raw: string, rest: string)
    requires quote == '\'' || quote == '"'
    requires LexQuoted(raw + rest, quote) == Closed(content, rest)
    ensures Tokens([quote] + (raw + rest)) == Prepend(if quote == '"' then Ident(content) else Quoted(content), Tokens(rest))
  {
    var text := [quote] + (raw + rest);
    assert text[1..] == raw + rest;
    hide LexQuoted; hide WordOf;
  }

  lemma TokensSpace(rest: string)
    ensures Tokens(" " + rest) == Tokens(rest)
  {
    assert (" " + rest)[1..] == rest;
  }

  function Names(ts: seq<Token>): seq<string> {
    if ts == [] then [] else (if ts[0].Ident? then [ts[0].name] else []) + Names(ts[1..])
  }

  /** What is written token by token reads back token by token. */
  lemma {:induction false} SpacedReads(ts: seq<Token>)
    requires forall t | t in ts :: Writable(t)
    ensures Tokens(Spaced(ts)) == Some(ts)
  {
    if |ts| == 1 {
      TokensFirst(ts[0], "");
      assert Written(ts[0]) + "" == Written(ts[0]);
      assert [ts[0]] + [] == ts && Tokens("") == Some([]);
    } else if |ts| > 1 {
      SpacedReads(ts[1..]);
      var rest := " " + Spaced(ts[1..]);
      TokensFirst(ts[0], rest);
      TokensSpace(Spaced(ts[1..]));
      assert Spaced(ts) == Written(ts[0]) + rest;
      assert [ts[0]] + ts[1..] == ts;
    }
  }

  /** A quote inside a name changes the names that are read. */
  lemma {:induction false} QuotedNameMisread(ts: seq<Token>)
    requires forall t | t in ts && !t.Ident? :: Writable(t)
    requires exists t | t in ts :: !Writable(t)
    ensures Tokens(Spaced(ts)).Some? ==> Names(Tokens(Spaced(ts)).value) != Names(ts)
  {
    hide Tokens; hide Written;
    var rest := if |ts| == 1 then "" else " " + Spaced(ts[1..]);
    assert Spaced(ts) == Written(ts[0]) + rest;
    if Writable(ts[0]) {
      assert ts == [ts[0]] + ts[1..];
      QuotedNameMisread(ts[1..]);
      TokensFirst(ts[0], rest);
      TokensSpace(Spaced(ts[1..]));
      var after := Tokens(rest);
      if after.Some? {
        var found := [ts[0]] + after.value;
        assert found[1..] == after.value;
        Cancel(if ts[0].Ident? then [ts[0].name] else [], Names(after.value), Names(ts[1..]));
      }
    } else {
      FirstNameMisread(ts[0].name, rest);
    }
  }

  lemma Cancel(front: seq<string>, xs: seq<string>, ys: seq<string>)
    ensures front + xs == front + ys ==> xs == ys
  {
    assert (front + xs)[|front|..] == xs && (front + ys)[|front|..] == ys;
  }

  lemma FirstNameMisread(name: string, rest: string)
    requires '"' in name && Apart(rest)
    ensures var text := Written(Ident(name)) + rest;
            Tokens(text).Some? ==> Names(Tokens(text).value) != [] && Names(Tokens(text).value)[0] != name
  {
    var text := Written(Ident(name)) + rest;
    assert text[1..] == name + "\"" + rest;
    var quoted := LexQuoted(name + "\"" + rest, '"');
    if quoted.Closed? && quoted.content == name {
      assert Quotes(0) + name == name;
      LexQuotedName(name, 0, rest);
    }
    hide LexQuoted; hide WordOf;
  }

  // ----------------------------------------------------------------- LIKE patterns

  datatype Element = Any | One | Exactly(c: char)

  /** An escape character stands before a wildcard or itself and nothing else. */
  function ReadPattern(p: string, escape: char): Option<seq<Element>> {
    if p == "" then Some([])
    else if p[0] == escape then
      if |p| > 1 && (p[1] == escape || p[1] == '%' || p[1] == '_')
      then Before([Exactly(p[1])], ReadPattern(p[2..], escape))
      else None
    else
      var first := if p[0] == '%' then Any else if p[0] == '_' then One else Exactly(p[0]);
      Before([first], ReadPattern(p[1..], escape))
  }

  function Before(es: seq<Element>, rest: Option<seq<Element>>): Option<seq<Element>> {
    if rest.None? then None else Some(es + rest.value)
  }

  /** The subject can be cut into pieces that meet the elements one by one; characters are
      compared after `fold`. */
  ghost predicate Matches(es: seq<Element>, s: string, fold: char -> char) {
    if es == [] then s == ""
    else match es[0]
      case Any => exists k | 0 <= k <= |s| :: Matches(es[1..], s[k..], fold)
      case One => s != "" && Matches(es[1..], s[1..], fold)
      case Exactly(c) => s != "" && fold(s[0]) == fold(c) && Matches(es[1..], s[1..], fold)
  }

  predicate SameText(s: string, v: string, fold: char -> char) {
    |s| == |v| && forall i | 0 <= i < |s| :: fold(s[i]) == fold(v[i])
  }

  predicate HasInfix(s: string, v: string, fold: char -> char) {
    exists k | 0 <= k <= |s| :: HasPrefix(s[k..], v, fold)
  }

  predicate HasPrefix(s: string, v: string, fold: char -> char) {
    |v| <= |s| && SameText(s[..|v|], v, fold)
  }

  predicate HasSuffix(s: string, v: string, fold: char -> char) {
    |v| <= |s| && SameText(s[|s| - |v|..], v, fold)
  }

  function Exact(v: string): seq<Element> {
    seq(|v|, i requires 0 <= i < |v| => Exactly(v[i]))
  }

  lemma {:induction false} MatchesExact(v: string, es: seq<Element>, s: string, fold: char -> char)
    ensures Matches(Exact(v) + es, s, fold) <==> HasPrefix(s, v, fold) && Matches(es, s[|v|..], fold)
  {
    if v == "" {
      assert Exact(v) + es == es && s[..0] == "" && s[0..] == s;
    } else {
      var all := Exact(v) + es;
      assert all[0] == Exactly(v[0]) && all[1..] == Exact(v[1..]) + es;
      if s != "" {
        MatchesExact(v[1..], es, s[1..], fold);
        if |v| <= |s| {
          assert s[|v|..] == s[1..][|v| - 1..];
          assert s[..|v|][1..] == s[1..][..|v| - 1];
        }
      }
    }
  }

  lemma AnyMatches(s: string, fold: char -> char)
    ensures Matches([Any], s, fold)
  {
    assert [Any][1..] == [] && s[|s|..] == "";
    assert Matches([], s[|s|..], fold);
  }

  /** `v%` */
  lemma PrefixPattern(v: string, s: string, fold: char -> char)
    ensures Matches(Exact(v) + [Any], s, fold) <==> HasPrefix(s, v, fold)
  {
    MatchesExact(v, [Any], s, fold);
    if |v| <= |s| { AnyMatches(s[|v|..], fold); }
  }

  /** `%v%` */
  lemma InfixPattern(v: string, s: string, fold: char -> char)
    ensures Matches([Any] + Exact(v) + [Any], s, fold) <==> HasInfix(s, v, fold)
  {
    var es := Exact(v) + [Any];
    assert ([Any] + Exact(v) + [Any])[1..] == es;
    forall k | 0 <= k <= |s| ensures Matches(es, s[k..], fold) <==> HasPrefix(s[k..], v, fold) {
      PrefixPattern(v, s[k..], fold);
    }
  }

  /** `%v` */
  lemma SuffixPattern(v: string, s: string, fold: char -> char)
    ensures Matches([Any] + Exact(v), s, fold) <==> HasSuffix(s, v, fold)
  {
    var es := Exact(v);
    assert ([Any] + es)[1..] == es && es + [] == es;
    forall k | 0 <= k <= |s|
      ensures Matches(es, s[k..], fold) <==> |s| - k == |v| && SameText(s[k..], v, fold)
    {
      MatchesExact(v, [], s[k..], fold);
      if |s| - k == |v| { assert s[k..][..|v|] == s[k..]; }
    }
    if HasSuffix(s, v, fold) { assert Matches(es, s[|s| - |v|..], fold); }
  }

  // -------------------------------------------------------------------- predicates

  /** A number stands for its exact value; infinities and NaN have no literal. */
  datatype SqlLiteral = TextOperand(s: string) | Number(value: real) | NotFinite | Flag(b: bool)

  datatype Relation = EqualTo | Unequal | Less | Greater | LessOrEqual | GreaterOrEqual

  datatype Predicate =
    | Compare(column: string, relation: Relation, operand: SqlLiteral)
    | Like(column: string, pattern: seq<Element>, negated: bool, caseless: bool)
    | NullTest(column: string, negated: bool)

  predicate AllDigits(s: string) {
    forall i | 0 <= i < |s| :: '0' <= s[i] <= '9'
  }

  function DigitsValue(s: string): nat
    requires AllDigits(s)
  {
    if s == "" then 0 else 10 * DigitsValue(s[..|s| - 1]) + (s[|s| - 1] as nat - '0' as nat)
  }

  function Power(n: nat): (r: nat)
    ensures r > 0
  {
    if n == 0 then 1 else 10 * Power(n - 1)
  }

  function Scaled(x: real, e: int): real {
    if e >= 0 then x * Power(e) as real else x / Power(-e) as real
  }

  /** The first place of either character, or the length. */
  function Find(s: string, c: char, d: char): (k: nat)
    ensures k <= |s| && (k < |s| ==> s[k] == c || s[k] == d)
  {
    if s == "" || s[0] == c || s[0] == d then 0 else 1 + Find(s[1..], c, d)
  }

  predicate Signed(s: string) {
    s != "" && (s[0] == '-' || s[0] == '+')
  }

  /** The text after its sign, if it has one. */
  function Bare(s: string): string {
    if Signed(s) then s[1..] else s
  }

  /** Digits, with or without a point somewhere. */
  function Mantissa(s: string): Option<real> {
    var k := Find(s, '.', '.');
    var fraction := if k < |s| then s[k + 1..] else "";
    var digits := s[..k] + fraction;
    if digits == "" || !AllDigits(digits) then None else Some(Scaled(DigitsValue(digits) as real, -|fraction|))
  }

  function Exponent(s: string): Option<int> {
    var digits := Bare(s);
    if digits == "" || !AllDigits(digits) then None
    else Some(if s[0] == '-' then -(DigitsValue(digits) as int) else DigitsValue(digits))
  }

  function Magnitude(s: string): Option<real> {
    var k := Find(s, 'e', 'E');
    if k == |s| then Mantissa(s)
    else
      var m, e := Mantissa(s[..k]), Exponent(s[k + 1..]);
      if m.None? || e.None? then None else Some(Scaled(m.value, e.value))
  }

  /** The exact value of a signed numeric literal (section 5.3), if the text is one. */
  function Numeral(s: string): Option<real> {
    var m := Magnitude(Bare(s));
    if m.Some? && s[0] == '-' then Some(-m.value) else m
  }

  lemma {:induction false} NoneFound(s: string, c: char, d: char)
    requires c !in s && d !in s
    ensures Find(s, c, d) == |s|
  {
    if s != "" {
      assert forall x | x in s[1..] :: x in s;
      NoneFound(s[1..], c, d);
    }
  }

  /** Digits alone are the numeral of their value. */
  lemma DigitsNumeral(s: string)
    requires s != "" && AllDigits(s)
    ensures Numeral(s) == Some(DigitsValue(s) as real)
  {
    NoneFound(s, 'e', 'E');
    assert Magnitude(s) == Mantissa(s);
    assert s[0] in s && Bare(s) == s;
    DigitsMantissa(s);
    hide Mantissa; hide Find; hide AllDigits;
  }

  lemma DigitsMantissa(s: string)
    requires s != "" && AllDigits(s)
    ensures Mantissa(s) == Some(DigitsValue(s) as real)
  {
    NoneFound(s, '.', '.');
    assert s[..|s|] + "" == s;
    var x := DigitsValue(s) as real;
    assert Scaled(x, 0) == x * Power(0) as real == x;
    hide DigitsValue; hide Find; hide Scaled;
  }

  /** Equally many digits have equal values only if they are the same digits. */
  lemma {:induction false} DigitsDiffer(s: string, t: string)
    requires AllDigits(s) && AllDigits(t) && |s| == |t|
    ensures DigitsValue(s) == DigitsValue(t) <==> s == t
  {
    if s != "" {
      var n := |s| - 1;
      DigitsDiffer(s[..n], t[..n]);
      assert s == s[..n] + [s[n]] && t == t[..n] + [t[n]];
    }
  }

  predicate InNumeral(c: char) {
    '0' <= c <= '9' || c == '.' || c == '-' || c == '+' || c == 'e' || c == 'E'
  }

  predicate NumeralChars(s: string) {
    forall i | 0 <= i < |s| :: InNumeral(s[i])
  }

  lemma MantissaChars(s: string)
    requires Mantissa(s).Some?
    ensures NumeralChars(s)
  {
    var k := Find(s, '.', '.');
    if k < |s| { assert s == s[..k] + ['.'] + s[k + 1..]; } else { assert s[..k] + "" == s; }
    var digits := s[..k] + if k < |s| then s[k + 1..] else "";
    forall i | 0 <= i < |s| ensures InNumeral(s[i]) {
      if i < k { assert digits[i] == s[i]; } else if i > k { assert digits[i - 1] == s[i]; }
    }
  }

  lemma ExponentChars(s: string)
    requires Exponent(s).Some?
    ensures NumeralChars(s)
  {
    hide DigitsValue;
    assert s == (if Signed(s) then [s[0]] else []) + Bare(s);
  }

  lemma MagnitudeChars(s: string)
    requires Magnitude(s).Some?
    ensures s != "" && NumeralChars(s)
  {
    var k := Find(s, 'e', 'E');
    hide Mantissa; hide Scaled; hide Exponent; hide Find;
    if k < |s| {
      MantissaChars(s[..k]);
      ExponentChars(s[k + 1..]);
      assert s == s[..k] + [s[k]] + s[k + 1..];
    } else {
      MantissaChars(s);
      NoMantissa();
    }
  }

  /** A numeral is one word. */
  lemma NumeralPlain(s: string)
    requires Numeral(s).Some?
    ensures NumeralChars(s) && Plain(s)
  {
    MagnitudeChars(Bare(s));
    hide Magnitude;
    assert s == (if Signed(s) then [s[0]] else []) + Bare(s);
  }

  lemma NoMantissa()
    ensures Mantissa("").None?
  { }

  lemma NotNumeral(s: string)
    requires |s| > 1 && !InNumeral(s[1])
    ensures Numeral(s).None?
  {
    if Numeral(s).Some? { NumeralPlain(s); }
    hide Numeral; hide InNumeral;
  }

  /** The comparison operators (section 8.2). */
  function ReadRelation(word: string): Option<Relation> {
    if word == "=" then Some(EqualTo)
    else if word == "!=" then Some(Unequal)
    else if word == "<" then Some(Less)
    else if word == ">" then Some(Greater)
    else if word == "<=" then Some(LessOrEqual)
    else if word == ">=" then Some(GreaterOrEqual)
    else None
  }

  function ReadOperand(t: Token): Option<SqlLiteral> {
    match t
    case Quoted(text) => Some(TextOperand(text))
    case Word(word) =>
      if word == "true" || word == "false" then Some(Flag(word == "true"))
      else if Numeral(word).Some? then Some(Number(Numeral(word).value)) else None
    case Ident(_) => None
  }

  function ReadLike(column: string, negated: bool, ts: seq<Token>): Option<Predicate> {
    if |ts| == 4 && (ts[0] == Word("LIKE") || ts[0] == Word("ILIKE")) && ts[1].Quoted? && ts[2] == Word("ESCAPE")
       && ts[3].Quoted? && |ts[3].text| == 1
    then
      var pattern := ReadPattern(ts[1].text, ts[3].text[0]);
      if pattern.None? then None else Some(Like(column, pattern.value, negated, ts[0] == Word("ILIKE")))
    else None
  }

  function ReadPredicate(ts: seq<Token>): Option<Predicate> {
    if |ts| < 3 || !ts[0].Ident? then None
    else if |ts| == 3 && ts[1].Word? && ReadRelation(ts[1].word).Some? then
      var operand := ReadOperand(ts[2]);
      if operand.None? then None else Some(Compare(ts[0].name, ReadRelation(ts[1].word).value, operand.value))
    else if ts[1..] == [Word("is"), Word("null")] then Some(NullTest(ts[0].name, false))
    else if ts[1..] == [Word("is"), Word("not"), Word("null")] then Some(NullTest(ts[0].name, true))
    else if ts[1] == Word("NOT") then ReadLike(ts[0].name, true, ts[2..])
    else ReadLike(ts[0].name, false, ts[1..])
  }

  /** A test of a list column against an array whose items are not looked into: equality, or
      having all of them. */
  datatype ListTest = ListTest(column: string, whole: bool, negated: bool, items: string)

  function ReadItems(s: string, opening: string, closing: string): Option<string> {
    if |s| >= |opening| + |closing| && s[..|opening|] == opening && s[|s| - |closing|..] == closing
    then Some(s[|opening|..|s| - |closing|]) else None
  }

  /** A delimited name, then an array between an opening and a closing text. */
  function ReadNameItems(s: string, opening: string, closing: string): Option<(string, string)> {
    if s == "" || s[0] != '"' then None
    else
      var name := LexQuoted(s[1..], '"');
      if name.Unclosed? then None
      else
        var items := ReadItems(name.rest, opening, closing);
        if items.None? then None else Some((name.content, items.value))
  }

  const HAS_ALL := "array_has_all("

  function ReadHasAll(s: string, negated: bool): Option<ListTest> {
    if !(HAS_ALL <= s) then None
    else
      var read := ReadNameItems(s[|HAS_ALL|..], ", ARRAY[", "])");
      if read.None? then None else Some(ListTest(read.value.0, false, negated, read.value.1))
  }

  function ReadListTest(text: string): Option<ListTest> {
    if "NOT " <= text then ReadHasAll(text[4..], true)
    else if HAS_ALL <= text then ReadHasAll(text, false)
    else
      var equal, unequal := ReadNameItems(text, " = ARRAY[", "]"), ReadNameItems(text, " != ARRAY[", "]");
      if equal.Some? then Some(ListTest(equal.value.0, true, false, equal.value.1))
      else if unequal.Some? then Some(ListTest(unequal.value.0, true, true, unequal.value.1))
      else None
  }

  /** What is written between quotes reads as the name exactly when the name has none inside. */
  lemma NameRead(name: string, rest: string)
    requires NoQuoteNext(rest)
    ensures var r := LexQuoted(name + "\"" + rest, '"');
            if '"' in name then r.Closed? ==> r.content != name else r == Closed(name, rest)
  {
    if '"' !in name {
      LexUnquoted(name, rest);
    } else {
      assert Quotes(0) + name == name;
      LexQuotedName(name, 0, rest);
    }
  }

  lemma NameItemsRead(name: string, opening: string, items: string, closing: string)
    requires NoQuoteNext(opening) && opening != ""
    ensures var read := ReadNameItems("\"" + name + "\"" + opening + items + closing, opening, closing);
            && ('"' !in name ==> read == Some((name, items)))
            && ('"' in name && read.Some? ==> read.value.0 != name)
  {
    var rest := opening + items + closing;
    var text := "\"" + name + "\"" + opening + items + closing;
    assert text[1..] == name + "\"" + rest;
    assert rest[0] == opening[0];
    NameRead(name, rest);
    ItemsRead(opening, items, closing);
    hide LexQuoted; hide ReadItems;
  }

  lemma UnequalRead(name: string, items: string)
    ensures var read := ReadNameItems("\"" + name + "\"" + " != ARRAY[" + items + "]", " = ARRAY[", "]");
            ('"' !in name ==> read.None?) && (read.Some? ==> read.value.0 != name)
  {
    var rest := " != ARRAY[" + items + "]";
    var text := "\"" + name + "\"" + " != ARRAY[" + items + "]";
    assert text[1..] == name + "\"" + rest;
    NameRead(name, rest);
    assert rest[1] == '!' && " = ARRAY["[1] == '=';
    assert |rest| >= 9 ==> rest[..9][1] == '!';
    hide LexQuoted;
  }

  lemma HasAllRead(argument: string)
    ensures ReadListTest(HAS_ALL + argument) == ReadHasAll(HAS_ALL + argument, false)
    ensures ReadListTest("NOT " + (HAS_ALL + argument)) == ReadHasAll(HAS_ALL + argument, true)
    ensures forall negated :: ReadHasAll(HAS_ALL + argument, negated) ==
              var read := ReadNameItems(argument, ", ARRAY[", "])");
              if read.None? then None else Some(ListTest(read.value.0, false, negated, read.value.1))
  {
    var text := HAS_ALL + argument;
    assert text[|HAS_ALL|..] == argument && ("NOT " + text)[4..] == text;
    assert text[0] == 'a' && "NOT "[0] == 'N';
    hide ReadNameItems;
  }

  lemma WholeRead(text: string)
    requires text != "" && text[0] == '"'
    ensures ReadListTest(text) ==
              var equal, unequal := ReadNameItems(text, " = ARRAY[", "]"), ReadNameItems(text, " != ARRAY[", "]");
              if equal.Some? then Some(ListTest(equal.value.0, true, false, equal.value.1))
              else if unequal.Some? then Some(ListTest(unequal.value.0, true, true, unequal.value.1))
              else None
  {
    assert "NOT "[0] == 'N' && HAS_ALL[0] == 'a';
    hide ReadNameItems; hide ReadHasAll;
  }

  lemma ItemsRead(opening: string, items: string, closing: string)
    ensures ReadItems(opening + items + closing, opening, closing) == Some(items)
  {
    var s := opening + items + closing;
    assert s[..|opening|] == opening && s[|s| - |closing|..] == closing && s[|opening|..|s| - |closing|] == items;
  }

  const AND: Token := Word("AND")

  /** The tokens between one AND and the next. */
  function SplitAtAnd(ts: seq<Token>): seq<seq<Token>> {
    if ts == [] then [[]]
    else if ts[0] == AND then [[]] + SplitAtAnd(ts[1..])
    else OntoFirst(ts[0], SplitAtAnd(ts[1..]))
  }

  function OntoFirst(t: Token, pieces: seq<seq<Token>>): seq<seq<Token>> {
    if pieces == [] then [[t]] else [[t] + pieces[0]] + pieces[1..]
  }

  function JoinedByAnd(pieces: seq<seq<Token>>): seq<Token> {
    if pieces == [] then []
    else if |pieces| == 1 then pieces[0]
    else pieces[0] + [AND] + JoinedByAnd(pieces[1..])
  }

  function ReadAll(pieces: seq<seq<Token>>): Option<seq<Predicate>> {
    if pieces == [] then Some([])
    else
      var first, rest := ReadPredicate(pieces[0]), ReadAll(pieces[1..]);
      if first.None? || rest.None? then None else Some([first.value] + rest.value)
  }

  /** A text as a conjunction of predicates. */
  function ReadFilter(text: string): Option<seq<Predicate>> {
    var ts := Tokens(text);
    if ts.None? then None else ReadAll(SplitAtAnd(ts.value))
  }

  lemma {:induction false} SplitFirst(piece: seq<Token>, rest: seq<Token>)
    requires AND !in piece
    ensures SplitAtAnd(piece) == [piece]
    ensures SplitAtAnd(piece + [AND] + rest) == [piece] + SplitAtAnd(rest)
  {
    var all := piece + [AND] + rest;
    if piece == [] {
      assert all[0] == AND && all[1..] == rest;
    } else {
      assert piece[0] in piece && all[0] == piece[0] && all[1..] == piece[1..] + [AND] + rest;
      SplitFirst(piece[1..], rest);
      assert [piece[0]] + piece[1..] == piece;
    }
  }

  lemma {:induction false} SplitJoined(pieces: seq<seq<Token>>)
    requires pieces != [] && forall piece | piece in pieces :: AND !in piece
    ensures SplitAtAnd(JoinedByAnd(pieces)) == pieces
  {
    if |pieces| == 1 {
      SplitFirst(pieces[0], []);
    } else {
      hide SplitAtAnd;
      assert forall piece | piece in pieces[1..] :: piece in pieces;
      SplitJoined(pieces[1..]);
      SplitFirst(pieces[0], JoinedByAnd(pieces[1..]));
      assert [pieces[0]] + pieces[1..] == pieces;
    }
  }

  function Columns(ps: seq<Predicate>): seq<string> {
    seq(|ps|, i requires 0 <= i < |ps| => ps[i].column)
  }

  lemma {:induction false} NamesAppend(xs: seq<Token>, ys: seq<Token>)
    ensures Names(xs + ys) == Names(xs) + Names(ys)
  {
    if xs == [] {
      assert xs + ys == ys;
    } else {
      NamesAppend(xs[1..], ys);
      assert (xs + ys)[1..] == xs[1..] + ys && (xs + ys)[0] == xs[0];
      var head := if xs[0].Ident? then [xs[0].name] else [];
      assert head + (Names(xs[1..]) + Names(ys)) == (head + Names(xs[1..])) + Names(ys);
    }
  }

  lemma NamesOfPredicate(ts: seq<Token>)
    requires ReadPredicate(ts).Some?
    ensures Names(ts) == [ReadPredicate(ts).value.column]
  {
    var others := ts[1..];
    forall t | t in others ensures !t.Ident? { }
    NoNames(others);
  }

  lemma {:induction false} NoNames(ts: seq<Token>)
    requires forall t | t in ts :: !t.Ident?
    ensures Names(ts) == []
  {
    if ts != [] {
      assert !ts[0].Ident? && forall t | t in ts[1..] :: t in ts;
      NoNames(ts[1..]);
    }
  }

  function NamesOfAll(pieces: seq<seq<Token>>): seq<string> {
    if pieces == [] then [] else Names(pieces[0]) + NamesOfAll(pieces[1..])
  }

  lemma {:induction false} NamesOfSplit(ts: seq<Token>)
    ensures NamesOfAll(SplitAtAnd(ts)) == Names(ts)
  {
    if ts != [] {
      NamesOfSplit(ts[1..]);
      var rest := SplitAtAnd(ts[1..]);
      if ts[0] != AND {
        assert SplitAtAnd(ts)[0][1..] == rest[0];
        assert SplitAtAnd(ts)[1..] == rest[1..];
      } else {
        assert SplitAtAnd(ts)[1..] == rest;
      }
    }
  }

  lemma {:induction false} NamesOfRead(pieces: seq<seq<Token>>)
    requires ReadAll(pieces).Some?
    ensures Columns(ReadAll(pieces).value) == NamesOfAll(pieces)
  {
    if pieces != [] {
      NamesOfPredicate(pieces[0]);
      NamesOfRead(pieces[1..]);
      hide ReadPredicate; hide Names;
    }
  }

  /** The columns of a conjunction are the identifiers of its text, in order. */
  lemma ColumnsAreNames(text: string)
    requires ReadFilter(text).Some?
    ensures Columns(ReadFilter(text).value) == Names(Tokens(text).value)
  {
    NamesOfSplit(Tokens(text).value);
    NamesOfRead(SplitAtAnd(Tokens(text).value));
  }

  // ----------------------------------------------------------------------- meaning

  datatype Truth = True | False | Unknown

  function Not(t: Truth): Truth {
    match t case True => False case False => True case Unknown => Unknown
  }

  function And(t: Truth, u: Truth): Truth {
    if t.False? || u.False? then False else if t.Unknown? || u.Unknown? then Unknown else True
  }

  function Of(b: bool): Truth {
    if b then True else False
  }

  datatype Order = Below | Same | Above

  /** Whether a relation holds of two values in that order. */
  predicate Related(relation: Relation, order: Order) {
    match relation
    case EqualTo => order.Same?
    case Unequal => !order.Same?
    case Less => order.Below?
    case Greater => order.Above?
    case LessOrEqual => !order.Above?
    case GreaterOrEqual => !order.Below?
  }

  /** What the model leaves to the query engine, for cells of any type: where a cell stands to a
      literal in their order (nowhere if it is null), the text LIKE sees (none for null), which
      characters ILIKE identifies. */
  datatype Engine<!Cell> = Engine(order: (Cell, SqlLiteral) -> Option<Order>, text: Cell -> Option<string>,
                                  isNull: Cell -> bool, fold: char -> char)

  function Folding<Cell>(e: Engine<Cell>, caseless: bool): char -> char {
    if caseless then e.fold else (c: char) => c
  }

  ghost function Evaluate<Cell>(p: Predicate, row: string -> Cell, e: Engine<Cell>): Truth {
    match p
    case Compare(column, relation, operand) =>
      var order := e.order(row(column), operand);
      if order.None? then Unknown else Of(Related(relation, order.value))
    case NullTest(column, negated) => Of(e.isNull(row(column)) != negated)
    case Like(column, pattern, negated, caseless) =>
      if e.text(row(column)).None? then Unknown
      else
        var holds := Of(Matches(pattern, e.text(row(column)).value, Folding(e, caseless)));
        if negated then Not(holds) else holds
  }

  ghost function EvaluateAll<Cell>(ps: seq<Predicate>, row: string -> Cell, e: Engine<Cell>): Truth {
    if ps == [] then True else And(Evaluate(ps[0], row, e), EvaluateAll(ps[1..], row, e))
  }
}
